/**
 Function records of a tracefile: `FNL` gives a group an index and its lines, `FNA` gives one
 alias its count; `FN` and `FNDA` are their older forms. Counts and fields, written and read.
 */
module FunctionRecords {
  import opened Wrappers
  import opened Text
  import opened Decimal
  import opened Tracefile
  import opened DigitStrings
  import opened Lexemes
  import opened Counters
  import opened Functions

  // ----- Counts through the format -----

  /** `count_bytes`. */
  function CountText(c: Count): string {
    if c.coercedZero then "0" else c.lexeme
  }

  /** What the parser takes a count token for. */
  function CountOf(text: string): Count {
    Coerced(Count(Stripped(text), false))
  }

  /** What the parser makes of a written count: an alias starts at zero and the count is added. */
  function Reread(text: string): Option<Count> {
    Plus(ZERO, CountOf(text))
  }

  /** White space around a count does not matter. */
  lemma {:induction false} SpaceAround(before: string, text: string, after: string)
    requires forall i :: 0 <= i < |before| ==> IsSpace(before[i])
    requires forall i :: 0 <= i < |after| ==> IsSpace(after[i])
    requires text != [] && !IsSpace(text[0]) && !IsSpace(text[|text| - 1])
    ensures CountOf(before + text + after) == CountOf(text)
  {
    hide Coerced;
    var s := before + text + after;
    if before != [] {
      assert s[1..] == before[1..] + text + after;
      SpaceAround(before[1..], text, after);
    } else {
      assert s == text + after;
      TrimmedAfter(text, after);
    }
  }

  /** Whatever the parser accepts as a first count, it keeps in canonical form. */
  lemma RereadCanonical(text: string)
    requires Reread(text).Some?
    ensures Canonical(Reread(text).value)
  {
    hide Plus, Canonical, Stripped;
    ZeroCanonical();
    PlusCanonical(ZERO, Stripped(text));
  }

  /** A count survives writing and reading exactly when its text is canonical; so everything that
      was read once survives. */
  lemma RereadIff(c: Count)
    ensures Reread(CountText(c)) == Some(c) <==> Canonical(c)
  {
    hide TextOf, PartsOf, Denotes, SumText, ClassOf, IsNegative, Pow10, Stripped;
    if Canonical(c) {
      NothingToStrip(c);
      ZeroClass();
      var n: nat, s: nat :| c.lexeme == TextOf(n, s);
      CanonicalFinite(n, s);
      ZeroPlus(TextOf(n, s), n, s);
    }
    if Reread(CountText(c)) == Some(c) {
      RereadCanonical(CountText(c));
    }
  }

  lemma NothingToStrip(c: Count)
    requires Canonical(c)
    ensures Stripped(CountText(c)) == CountText(c)
  {
    hide Canonical;
    CanonicalChars(c);
  }

  // ----- Fields -----

  predicate IsDigits(s: string) {
    s != [] && AllDigits(s)
  }

  /** `parse_u64_digits(..).unwrap_or(0)`. */
  function IndexOfDigits(s: string): nat
    requires AllDigits(s)
  {
    if Value(s) < 0x1_0000_0000_0000_0000 then Value(s) else 0
  }

  datatype FnlFields = FnlFields(index: nat, start: Line, end: Option<Line>)

  function ParseFnl(payload: string): Option<FnlFields> {
    var parts := Split(payload, ',', |payload|);
    if 2 <= |parts| <= 3 && (forall i :: 0 <= i < |parts| ==> IsDigits(parts[i])) then
      Some(FnlFields(IndexOfDigits(parts[0]), parts[1], if |parts| == 3 then Some(parts[2]) else None))
    else None
  }

  datatype FnaFields = FnaFields(index: nat, count: string, alias: Name)

  function ParseFna(payload: string): Option<FnaFields> {
    var parts := Split(payload, ',', 2);
    if |parts| == 3 && IsDigits(parts[0]) && parts[2] != [] then
      Some(FnaFields(IndexOfDigits(parts[0]), parts[1], parts[2]))
    else None
  }

  function FnlPayload(index: nat, g: Group): string {
    if g.end.Some? then Print(index) + [','] + (g.start + [','] + g.end.value)
    else Print(index) + [','] + g.start
  }

  function FnaPayload(index: nat, count: Count, alias: Name): string {
    Print(index) + [','] + (CountText(count) + [','] + alias)
  }

  lemma DigitsNoComma(s: string)
    requires AllDigits(s)
    ensures ',' !in s
  {}

  lemma IndexReads(index: nat)
    requires index < 0x1_0000_0000_0000_0000
    ensures IsDigits(Print(index)) && IndexOfDigits(Print(index)) == index && ',' !in Print(index)
  {
    ValueOfPrint(index);
    DigitsNoComma(Print(index));
  }

  predicate NumericLines(g: Group) {
    IsDigits(g.start) && (g.end.Some? ==> IsDigits(g.end.value))
  }

  /** A written `FNL` payload without stray commas parses exactly when its lines are numbers, and
      then into what it was written from. */
  lemma FnlParses(index: nat, g: Group)
    requires index < 0x1_0000_0000_0000_0000 && ',' !in g.start && (g.end.Some? ==> ',' !in g.end.value)
    ensures ParseFnl(FnlPayload(index, g)) == if NumericLines(g) then Some(FnlFields(index, g.start, g.end)) else None
  {
    hide Split, Print, IndexOfDigits, IsDigits;
    var payload := FnlPayload(index, g);
    IndexReads(index);
    if g.end.Some? {
      SplitStep(Print(index), ',', g.start + [','] + g.end.value, |payload|);
      SplitStep(g.start, ',', g.end.value, |payload| - 1);
      SplitWhole(g.end.value, ',', |payload| - 2);
      var parts := [Print(index), g.start, g.end.value];
      assert Split(payload, ',', |payload|) == parts;
      assert parts[0] == Print(index) && parts[1] == g.start && parts[2] == g.end.value;
    } else {
      SplitStep(Print(index), ',', g.start, |payload|);
      SplitWhole(g.start, ',', |payload| - 1);
      var parts := [Print(index), g.start];
      assert Split(payload, ',', |payload|) == parts;
      assert parts[0] == Print(index) && parts[1] == g.start;
    }
  }

  /** A written `FNL` payload parses into what it was written from. */
  lemma FnlReads(index: nat, g: Group)
    requires index < 0x1_0000_0000_0000_0000 && NumericLines(g)
    ensures ParseFnl(FnlPayload(index, g)) == Some(FnlFields(index, g.start, g.end))
  {
    hide ParseFnl, FnlPayload;
    DigitsNoComma(g.start);
    if g.end.Some? {
      DigitsNoComma(g.end.value);
    }
    FnlParses(index, g);
  }

  /** An alias may contain commas, but not be empty; the count may not contain one. */
  lemma FnaParses(index: nat, count: Count, alias: Name)
    requires index < 0x1_0000_0000_0000_0000 && ',' !in CountText(count)
    ensures ParseFna(FnaPayload(index, count, alias)) ==
            if alias == [] then None else Some(FnaFields(index, CountText(count), alias))
  {
    hide Split, Print, IndexOfDigits;
    IndexReads(index);
    SplitStep(Print(index), ',', CountText(count) + [','] + alias, 2);
    SplitStep(CountText(count), ',', alias, 1);
    AllOfIt(alias);
    assert Split(FnaPayload(index, count, alias), ',', 2) == [Print(index), CountText(count), alias];
  }

  lemma AllOfIt(s: string)
    ensures Split(s, ',', 0) == [s]
  {}

  datatype FnFields = FnFields(start: Line, end: Option<Line>, name: Name)

  /** The older `FN` record: the end is there if a number stands before another comma. */
  function ParseFn(payload: string): Option<FnFields> {
    var parts := Split(payload, ',', 1);
    if |parts| < 2 || !IsDigits(parts[0]) || parts[1] == [] then None
    else
      var rest := Split(parts[1], ',', 1);
      if |rest| == 2 && IsDigits(rest[0]) && rest[1] != [] then Some(FnFields(parts[0], Some(rest[0]), rest[1]))
      else Some(FnFields(parts[0], None, parts[1]))
  }

  /** All zeros: a line number that is reported but kept. */
  predicate NotPositive(digits: string) {
    forall i :: 0 <= i < |digits| ==> digits[i] == '0'
  }

  datatype FndaFields = FndaFields(count: string, name: Name)

  function ParseFnda(payload: string): Option<FndaFields> {
    var parts := Split(payload, ',', 1);
    if |parts| < 2 || parts[1] == [] then None else Some(FndaFields(parts[0], parts[1]))
  }

  // ----- The older records -----

  function FnPayload(start: Line, end: Option<Line>, name: Name): string {
    start + [','] + (if end.Some? then end.value + [','] + name else name)
  }

  function FndaPayload(count: string, name: Name): string {
    count + [','] + name
  }

  /** A name that begins with a number and a comma, which a reader takes for an end. */
  ghost predicate BeginsLikeEnd(name: Name) {
    exists digits, rest :: IsDigits(digits) && rest != [] && name == FndaPayload(digits, rest)
  }

  /** A written `FN` payload with an end parses into its start, its end and its name. */
  lemma FnWithEnd(start: Line, end: Line, name: Name)
    requires ',' !in start && IsDigits(end) && name != []
    ensures ParseFn(FnPayload(start, Some(end), name)) ==
            if IsDigits(start) then Some(FnFields(start, Some(end), name)) else None
  {
    hide Split;
    DigitsNoComma(end);
    TwoFields(start, end + [','] + name);
    TwoFields(end, name);
  }

  /** One without an end parses into its start and its name, unless the name begins like an end. */
  lemma FnWithoutEnd(start: Line, name: Name)
    requires ',' !in start && !BeginsLikeEnd(name)
    ensures ParseFn(FnPayload(start, None, name)) ==
            if IsDigits(start) && name != [] then Some(FnFields(start, None, name)) else None
  {
    hide Split, IsDigits;
    TwoFields(start, name);
    if ',' in name {
      var digits, rest := CommaIn(name);
      TwoFields(digits, rest);
      assert name == FndaPayload(digits, rest);
    } else {
      SplitWhole(name, ',', 1);
    }
  }

  /** An `FNDA` payload parses into its count and its name, exactly when the name is not empty. */
  lemma FndaParses(count: string, name: Name)
    requires ',' !in count
    ensures ParseFnda(FndaPayload(count, name)) == if name == [] then None else Some(FndaFields(count, name))
  {
    hide Split;
    TwoFields(count, name);
  }

  /** Without a comma neither of the two is a record. */
  lemma NoFields(payload: string)
    requires ',' !in payload
    ensures ParseFn(payload).None? && ParseFnda(payload).None?
  {
    SplitWhole(payload, ',', 1);
  }

  lemma TwoFields(first: string, rest: string)
    requires ',' !in first
    ensures Split(first + [','] + rest, ',', 1) == [first, rest]
  {
    hide Split;
    SplitStep(first, ',', rest, 1);
    AllOfIt(rest);
    assert first + [','] + rest == first + ([','] + rest);
  }

  lemma CommaIn(name: Name) returns (first: string, rest: string)
    requires ',' in name
    ensures ',' !in first && name == first + [','] + rest
  {
    var k := IndexOf(name, ',');
    first, rest := name[..k], name[k + 1..];
  }

  // ----- Nothing else parses -----

  /** Joining the fields of a split restores the text. */
  lemma {:induction false} SplitJoined(s: string, maximum: nat) returns (rest: string)
    ensures var parts := Split(s, ',', maximum);
            && (|parts| == 1 ==> s == parts[0])
            && (|parts| > 1 ==> s == FndaPayload(parts[0], rest) && parts[1..] == Split(rest, ',', maximum - 1))
  {
    hide IndexOf;
    var k := IndexOf(s, ',');
    if maximum > 0 && k < |s| {
      rest := s[k + 1..];
      var parts := Split(s, ',', maximum);
      assert parts == [s[..k]] + Split(rest, ',', maximum - 1);
      assert parts[0] == s[..k] && parts[1..] == Split(rest, ',', maximum - 1);
      assert s == s[..k] + [','] + rest;
    } else {
      rest := [];
    }
  }

  /** Whatever is read as an `FNL` record is an index, a start and perhaps an end, all numbers. */
  lemma FnlIsWritten(payload: string) returns (index: string)
    requires ParseFnl(payload).Some?
    ensures var f := ParseFnl(payload).value;
            && IsDigits(index) && IsDigits(f.start) && (f.end.Some? ==> IsDigits(f.end.value))
            && f.index == IndexOfDigits(index)
            && payload == index + [','] + (if f.end.Some? then f.start + [','] + f.end.value else f.start)
  {
    hide Split, IsDigits;
    var parts := Split(payload, ',', |payload|);
    index := parts[0];
    var rest := SplitJoined(payload, |payload|);
    var last := SplitJoined(rest, |payload| - 1);
    if |parts| == 3 {
      var none := SplitJoined(last, |payload| - 2);
      assert parts[1..][1..] == [parts[2]] && parts[1..][0] == parts[1];
    }
  }

  /** Whatever is read as an `FNA` record is an index, a count and an alias that is not empty. */
  lemma FnaIsWritten(payload: string) returns (index: string)
    requires ParseFna(payload).Some?
    ensures var f := ParseFna(payload).value;
            && IsDigits(index) && f.index == IndexOfDigits(index) && f.alias != []
            && payload == index + [','] + (f.count + [','] + f.alias)
  {
    hide Split, IsDigits;
    var parts := Split(payload, ',', 2);
    index := parts[0];
    var rest := SplitJoined(payload, 2);
    var last := SplitJoined(rest, 1);
    AllOfIt(last);
    assert parts[1..][1..] == [parts[2]] && parts[1..][0] == parts[1];
  }

  /** Whatever is read as an `FN` or `FNDA` record is written from what is read. */
  lemma OlderAreWritten(payload: string)
    ensures ParseFn(payload).Some? ==>
              var f := ParseFn(payload).value;
              && IsDigits(f.start) && (f.end.Some? ==> IsDigits(f.end.value)) && f.name != []
              && payload == FnPayload(f.start, f.end, f.name)
    ensures ParseFnda(payload).Some? ==>
              var f := ParseFnda(payload).value; f.name != [] && payload == FndaPayload(f.count, f.name)
  {
    hide Split, IsDigits;
    var parts := Split(payload, ',', 1);
    if |parts| > 1 {
      FirstOfTwo(payload);
      if ParseFn(payload).Some? && ParseFn(payload).value.end.Some? {
        FirstOfTwo(parts[1]);
      }
    }
  }

  lemma FirstOfTwo(s: string)
    requires |Split(s, ',', 1)| > 1
    ensures var parts := Split(s, ',', 1); |parts| == 2 && s == FndaPayload(parts[0], parts[1])
  {
    hide Split;
    var parts := Split(s, ',', 1);
    var rest := SplitJoined(s, 1);
    AllOfIt(rest);
    assert parts[1] == parts[1..][0] == rest;
  }

  /** A count is written as its text, and as a plain zero once it was coerced. */
  lemma CountTextIs(c: Count)
    ensures !c.coercedZero ==> CountText(c) == c.lexeme
    ensures c.coercedZero ==> CountText(c) == "0" && Reread(CountText(c)) == Some(ZERO)
  {
    hide Canonical, Reread;
    if c.coercedZero {
      ZeroCanonical();
      RereadIff(ZERO);
      assert CountText(c) == CountText(ZERO);
    }
  }

  /** The last field of a split is the end of the text. */
  lemma {:induction false} LastField(s: string, maximum: nat)
    ensures var parts := Split(s, ',', maximum);
            var last := parts[|parts| - 1];
            |last| <= |s| && last == s[|s| - |last|..]
  {
    hide IndexOf;
    var k := IndexOf(s, ',');
    if maximum > 0 && k < |s| {
      LastField(s[k + 1..], maximum - 1);
      assert Split(s, ',', maximum) == [s[..k]] + Split(s[k + 1..], ',', maximum - 1);
      var parts := Split(s[k + 1..], ',', maximum - 1);
      var last := parts[|parts| - 1];
      assert s[k + 1..][|s| - k - 1 - |last|..] == s[|s| - |last|..];
    }
  }

  /** A canonical count is written in digits and points. */
  lemma CanonicalChars(c: Count)
    requires Canonical(c)
    ensures forall i :: 0 <= i < |CountText(c)| ==> IsDigit(CountText(c)[i]) || CountText(c)[i] == '.'
  {
    hide Shortest, Pointed;
    var n: nat, s: nat :| c.lexeme == TextOf(n, s);
    if n > 0 {
      ShortestFacts(n, s);
      var w: nat, u: nat :| u <= s && w > 0 && Shortest(n, s) == Pointed(w, u) && n == w * Pow10(s - u);
      PointedChars(w, u);
      assert "" + Shortest(n, s) == Shortest(n, s);
    }
  }

  lemma PointedChars(v: nat, s: nat)
    ensures forall i :: 0 <= i < |Pointed(v, s)| ==> IsDigit(Pointed(v, s)[i]) || Pointed(v, s)[i] == '.'
  {
    hide Print;
    var d := Print(v);
    assert forall i :: 0 <= i < |d| ==> IsDigit(d[i]);
  }

  lemma CanonicalNoComma(c: Count)
    requires Canonical(c)
    ensures ',' !in CountText(c)
  {
    hide Canonical;
    CanonicalChars(c);
  }
}
