/**
 The older function records, `FN` and `FNDA`, give the same table as `FNL` and `FNA`: a table
 written in either form is read into the same groups.
 */
module LegacyRecords {
  import opened Wrappers
  import opened Text
  import opened Decimal
  import opened Ordering
  import opened Counters
  import opened Functions
  import opened FunctionRecords
  import opened FunctionReader
  import opened FunctionText

  // ----- Lines -----

  function FnText(start: Line, end: Option<Line>, name: Name): string {
    "FN:" + FnPayload(start, end, name)
  }

  function FndaText(count: Count, name: Name): string {
    "FNDA:" + FndaPayload(CountText(count), name)
  }

  /** An `FN` and an `FNDA` line for each of the first `n` names. */
  function LegacyLines(g: Group, names: seq<Name>, n: nat): seq<string>
    requires n <= |names| && NamesOf(names, g)
  {
    if n == 0 then []
    else
      LegacyLines(g, names, n - 1)
      + [FnText(g.start, g.end, names[n - 1]), FndaText(g.aliases[names[n - 1]], names[n - 1])]
  }

  function LegacyTable(groups: Groups, order: seq<Line>, listing: Listing, n: nat): seq<string>
    requires n <= |order| && Listed(groups, order, listing)
  {
    if n == 0 then []
    else
      var g, names := groups[order[n - 1]], listing[order[n - 1]];
      LegacyTable(groups, order, listing, n - 1) + LegacyLines(g, names, |names|)
  }

  /** Without an end, no alias begins like one. */
  ghost predicate Unmistaken(g: Group) {
    g.end.None? ==> forall a :: a in g.aliases ==> !BeginsLikeEnd(a)
  }

  predicate PositiveLines(g: Group)
    requires NumericLines(g)
  {
    Value(g.start) > 0 && (g.end.Some? ==> Value(g.end.value) > 0)
  }

  lemma ZeroDigits(s: string)
    requires AllDigits(s)
    ensures NotPositive(s) <==> Value(s) == 0
  {
    hide Value;
    ZeroValue(s);
  }

  // ----- One alias -----

  lemma FnLineMeans(g: Group, alias: Name, count: Count)
    requires NumericLines(g) && Carries(alias, count)
    ensures var line := FnText(g.start, g.end, alias);
            IsLine(line) && Classify(line) == FnLine(FnPayload(g.start, g.end, alias))
  {
    hide IsLine, LineFree, Canonical, Classify, FnPayload;
    AliasIsLine(alias, count);
    FnFront(g.start, g.end, alias);
    var front := if g.end.Some? then "FN:" + g.start + [','] + g.end.value + [','] else "FN:" + g.start + [','];
    GluedLine(front, alias);
    Retagged("FN:", FnPayload(g.start, g.end, alias));
    FnClass(FnText(g.start, g.end, alias));
  }

  lemma FnFront(start: Line, end: Option<Line>, alias: Name)
    requires AllDigits(start) && (end.Some? ==> AllDigits(end.value))
    ensures var front := if end.Some? then "FN:" + start + [','] + end.value + [','] else "FN:" + start + [','];
            LineFree(front) && FnText(start, end, alias) == front + alias
  {
    var front := if end.Some? then "FN:" + start + [','] + end.value + [','] else "FN:" + start + [','];
    assert FnText(start, end, alias) == front + alias;
    DigitsAreText(start);
    if end.Some? { DigitsAreText(end.value); }
  }

  lemma FnClass(line: string)
    requires "FN:" <= line
    ensures Classify(line) == FnLine(line[3..])
  {
    assert line[0] == 'F' && line[1] == 'N' && line[2] == ':';
  }

  lemma FndaLineMeans(alias: Name, count: Count)
    requires Carries(alias, count)
    ensures var line := FndaText(count, alias);
            IsLine(line) && Classify(line) == FndaLine(FndaPayload(CountText(count), alias))
  {
    hide IsLine, Canonical, Classify;
    CanonicalIsText(count);
    AliasIsLine(alias, count);
    var front := "FNDA:" + CountText(count) + [','];
    GluedLine(front, alias);
    assert FndaText(count, alias) == front + alias;
    Retagged("FNDA:", FndaPayload(CountText(count), alias));
    FndaClass(FndaText(count, alias));
  }

  lemma FndaClass(line: string)
    requires "FNDA:" <= line
    ensures Classify(line) == FndaLine(line[5..])
  {
    assert line[0] == 'F' && line[1] == 'N' && line[2] == 'D';
  }

  lemma FnReads(g: Group, alias: Name)
    requires NumericLines(g) && Unmistaken(g) && alias in g.aliases && alias != []
    ensures ParseFn(FnPayload(g.start, g.end, alias)) == Some(FnFields(g.start, g.end, alias))
  {
    hide ParseFn, FnPayload, BeginsLikeEnd;
    DigitsNoComma(g.start);
    if g.end.Some? {
      FnWithEnd(g.start, g.end.value, alias);
    } else {
      FnWithoutEnd(g.start, alias);
    }
  }

  lemma FnStepIs(st: Reading, payload: string, g: Group, alias: Name, rules: Rules)
    requires NumericLines(g) && ParseFn(payload) == Some(FnFields(g.start, g.end, alias))
    requires alias !in st.tables.index
    ensures FnStep(st, payload, rules) ==
            st.(tables := With(st.tables, g.start, EnsuredEnd(st.tables.groups, g.start, g.end),
                               Ensured(st.tables.groups, g.start, alias), alias),
                clean := st.clean && PositiveLines(g))
  {
    hide ParseFn, With, EnsuredEnd, Ensured, NotPositive, Value;
    ZeroDigits(g.start);
    if g.end.Some? { ZeroDigits(g.end.value); }
  }

  lemma FndaStepIs(st: Reading, payload: string, start: Line, alias: Name, count: string)
    requires ParseFnda(payload) == Some(FndaFields(count, alias))
    requires alias in st.tables.index && st.tables.index[alias] == start
    ensures FndaStep(st, payload) == Take(st, InsertIn(st.tables, start, alias, CountOf(count)))
  {
    hide ParseFnda, InsertIn;
  }

  lemma EnsuredFresh(t: Tables, start: Line, alias: Name)
    requires Coherent(t.groups, t.index) && alias !in t.index
    ensures Ensured(t.groups, start, alias) == AliasesAt(t.groups, start)[alias := ZERO]
  {
    hide Coherent;
    if start in t.groups { AliasHome(t.groups, t.index, start, alias); }
  }

  /** Both lines of a new alias together do what its `FNA` line does. */
  lemma PairRead(st: Reading, g: Group, alias: Name, rules: Rules)
    requires st.live && Sound(st) && Writable(g) && Unmistaken(g) && alias in g.aliases && alias !in st.tables.index
    ensures var groups := st.tables.groups;
            LineStep(LineStep(st, FnText(g.start, g.end, alias), rules), FndaText(g.aliases[alias], alias), rules) ==
            st.(tables := With(st.tables, g.start, EnsuredEnd(groups, g.start, g.end),
                               AliasesAt(groups, g.start)[alias := g.aliases[alias]], alias),
                clean := st.clean && PositiveLines(g))
  {
    hide ParseFn, ParseFnda, Classify, FnText, FndaText, Canonical, Coherent, EnsuredEnd, Unmistaken, FnStep, FndaStep,
         LineFree, AllWritable, FnlSound, FnPayload, FndaPayload, CountText, CountOf, GroupOf, InsertIn, NumericLines,
         PositiveLines, Ensured;
    var count := g.aliases[alias];
    assert Carries(alias, count);
    FnLineMeans(g, alias, count);
    FndaLineMeans(alias, count);
    AliasIsLine(alias, count);
    FnReads(g, alias);
    CanonicalNoComma(count);
    FndaParses(CountText(count), alias);
    var t := st.tables;
    EnsuredFresh(t, g.start, alias);
    var zeroed := AliasesAt(t.groups, g.start)[alias := ZERO];
    assert zeroed[alias := count] == AliasesAt(t.groups, g.start)[alias := count];
    FnStepIs(st, FnPayload(g.start, g.end, alias), g, alias, rules);
    var opened' := LineStep(st, FnText(g.start, g.end, alias), rules);
    FndaStepIs(opened', FndaPayload(CountText(count), alias), g.start, alias, CountText(count));
    InsertAfterEnsure(t, g.start, EnsuredEnd(t.groups, g.start, g.end), zeroed, alias, count);
  }

  // ----- One group -----

  lemma {:induction false} LegacyLinesRead(st: Reading, g: Group, names: seq<Name>, m: nat, rules: Rules)
    requires st.live && Sound(st) && m <= |names| && NamesOf(names, g) && Distinct(names)
    requires NewTo(st.tables, g) && Writable(g) && Unmistaken(g)
    ensures var r := ReadLines(st, LegacyLines(g, names, m), rules);
            Sound(r) && r == st.(tables := PartTables(st.tables, g, names, m),
                                 clean := st.clean && (m > 0 ==> PositiveLines(g)))
  {
    hide LineStep, Sound, FnText, FndaText, PartTables, NewTo, With, Writable, Unmistaken, ReadLines, IsLine,
         EnsuredEnd, PositiveLines, Carries;
    assert forall i :: 0 <= i < |names| ==> names[i] in g.aliases;
    if m == 0 {
      NoPart(st.tables, g, names);
      ReadNone(st, rules);
    } else {
      LegacyLinesRead(st, g, names, m - 1, rules);
      var lines := LegacyLines(g, names, m - 1);
      var part := ReadLines(st, lines, rules);
      var alias := names[m - 1];
      PartIndexed(st.tables, g, names, m - 1);
      assert alias !in names[..m - 1];
      PairRead(part, g, alias, rules);
      WritableCarries(g, alias);
      PairSound(part, g, alias, rules);
      PartStep(st.tables, g, names, m - 1);
      PairAppend(st, lines, FnText(g.start, g.end, alias), FndaText(g.aliases[alias], alias), rules);
    }
  }

  lemma WritableCarries(g: Group, alias: Name)
    requires Writable(g) && alias in g.aliases
    ensures NumericLines(g) && Carries(alias, g.aliases[alias])
  {}

  lemma PairSound(st: Reading, g: Group, alias: Name, rules: Rules)
    requires Sound(st) && NumericLines(g) && alias in g.aliases && Carries(alias, g.aliases[alias])
    ensures IsLine(FnText(g.start, g.end, alias)) && IsLine(FndaText(g.aliases[alias], alias))
    ensures Sound(LineStep(LineStep(st, FnText(g.start, g.end, alias), rules), FndaText(g.aliases[alias], alias),
                           rules))
  {
    hide Sound, LineStep, FnText, FndaText, Carries, IsLine, Classify;
    FnLineMeans(g, alias, g.aliases[alias]);
    FndaLineMeans(alias, g.aliases[alias]);
    LineStepSound(st, FnText(g.start, g.end, alias), rules);
    LineStepSound(LineStep(st, FnText(g.start, g.end, alias), rules), FndaText(g.aliases[alias], alias), rules);
  }

  lemma PairAppend(st: Reading, lines: seq<string>, one: string, two: string, rules: Rules)
    requires IsLine(one) && IsLine(two)
    ensures ReadLines(st, lines + [one, two], rules) ==
            LineStep(LineStep(ReadLines(st, lines, rules), one, rules), two, rules)
  {
    hide LineStep, IsLine;
    TrimmedSame(one);
    TrimmedSame(two);
    var all := lines + [one, two];
    assert all[..|all| - 1] == lines + [one];
    assert (lines + [one])[..|lines|] == lines;
  }

  // ----- The table -----

  ghost predicate AllUnmistaken(groups: Groups) {
    forall s :: s in groups ==> Unmistaken(groups[s])
  }

  /** The first `n` groups have been read, and their lines were positive as long as it is clean. */
  ghost predicate LegacyReadTo(groups: Groups, order: seq<Line>, n: nat, st: Reading) {
    && ReadTo(groups, order, n, st.(clean := true))
    && forall s :: s in order[..n] ==> s in groups && (st.clean ==> PositiveLines(groups[s]))
  }

  lemma SoundUnclean(st: Reading)
    ensures Sound(st.(clean := true)) <==> Sound(st)
  {
    hide TablesSound, FnlSound;
  }

  lemma LegacyNext(groups: Groups, gi: Index, order: seq<Line>, listing: Listing, n: nat, st: Reading, rules: Rules)
    requires Coherent(groups, gi) && Distinct(order) && n < |order| && WellListed(groups, order, listing)
    requires AllWritable(groups) && AllUnmistaken(groups) && LegacyReadTo(groups, order, n, st)
    requires (forall k :: 0 <= k < n ==> PositiveLines(groups[order[k]])) ==> st.clean
    ensures var s := order[n];
            var r := ReadLines(st, LegacyLines(groups[s], listing[s], |listing[s]|), rules);
            && LegacyReadTo(groups, order, n + 1, r)
            && ((forall k :: 0 <= k < n + 1 ==> PositiveLines(groups[order[k]])) ==> r.clean)
  {
    hide Coherent, Distinct, SortedBy, Writable, Unmistaken, NewTo, GroupValid, ReadLines, PartTables, LegacyLines,
         Sound, NamesOf, PositiveLines;
    var s := order[n];
    var g, names := groups[s], listing[s];
    assert InOrder(names, g) && NamesOf(names, g);
    SoundUnclean(st);
    StillNew(groups, gi, order, n, st.(clean := true));
    LegacyLinesRead(st, g, names, |names|, rules);
    var r := ReadLines(st, LegacyLines(g, names, |names|), rules);
    SoundUnclean(r);
    PartWhole(st.tables, g, names);
    GroupHasName(g);
    assert order[..n + 1] == order[..n] + [s];
  }

  lemma GroupHasName(g: Group)
    requires GroupValid(g)
    ensures g.representative in g.aliases
  {}

  lemma {:induction false} LegacyTableRead(groups: Groups, gi: Index, order: seq<Line>, listing: Listing, n: nat,
                                           rules: Rules)
    requires Coherent(groups, gi) && Distinct(order) && n <= |order| && WellListed(groups, order, listing)
    requires AllWritable(groups) && AllUnmistaken(groups)
    ensures Listed(groups, order, listing)
    ensures var r := ReadLines(FRESH_READING, LegacyTable(groups, order, listing, n), rules);
            && LegacyReadTo(groups, order, n, r)
            && ((forall k :: 0 <= k < n ==> PositiveLines(groups[order[k]])) ==> r.clean)
  {
    hide Coherent, Distinct, WellListed, AllWritable, AllUnmistaken, LegacyReadTo, ReadLines, LegacyLines,
         PositiveLines, NamesOf;
    ListedToo(groups, order, listing);
    if n == 0 {
      FreshSound();
      NothingRead(groups, order);
      NothingLegacy(groups, order);
      ReadNone(FRESH_READING, rules);
    } else {
      LegacyTableRead(groups, gi, order, listing, n - 1, rules);
      var lines := LegacyTable(groups, order, listing, n - 1);
      var st := ReadLines(FRESH_READING, lines, rules);
      LegacyNext(groups, gi, order, listing, n - 1, st, rules);
      var s := order[n - 1];
      ReadAppend(FRESH_READING, lines, LegacyLines(groups[s], listing[s], |listing[s]|), rules);
    }
  }

  lemma NothingLegacy(groups: Groups, order: seq<Line>)
    requires ReadTo(groups, order, 0, FRESH_READING)
    ensures LegacyReadTo(groups, order, 0, FRESH_READING)
  {
    hide ReadTo;
    assert FRESH_READING.(clean := true) == FRESH_READING;
  }

  lemma {:induction false} LegacyLinesFree(g: Group, names: seq<Name>, n: nat)
    requires n <= |names| && NamesOf(names, g) && Writable(g)
    ensures AllLineFree(LegacyLines(g, names, n))
  {
    hide FnText, FndaText, LineFree, Carries;
    if n > 0 {
      LegacyLinesFree(g, names, n - 1);
      FnLineMeans(g, names[n - 1], g.aliases[names[n - 1]]);
      FndaLineMeans(names[n - 1], g.aliases[names[n - 1]]);
    }
  }

  lemma {:induction false} LegacyTableFree(groups: Groups, order: seq<Line>, listing: Listing, n: nat)
    requires n <= |order| && Listed(groups, order, listing) && AllWritable(groups)
    ensures AllLineFree(LegacyTable(groups, order, listing, n))
  {
    hide Writable, LineFree, LegacyLines, NamesOf;
    if n > 0 {
      LegacyTableFree(groups, order, listing, n - 1);
      var g, names := groups[order[n - 1]], listing[order[n - 1]];
      assert NamesOf(names, g);
      LegacyLinesFree(g, names, |names|);
    }
  }

  /** A writable table whose aliases cannot be mistaken is read from its `FN` and `FNDA` lines as it
      is from its `FNL` and `FNA` lines: as itself. Zero lines are diagnosed in the older form. */
  lemma LegacyRoundTrip(groups: Groups, gi: Index, order: seq<Line>, listing: Listing, rules: Rules)
    requires Coherent(groups, gi) && Distinct(order) && |order| < INDEX_LIMIT && WellListed(groups, order, listing)
    requires (forall s :: s in order <==> s in groups) && AllWritable(groups) && AllUnmistaken(groups)
    ensures var old' := ReadBytes(Frame(LegacyTable(groups, order, listing, |order|)), rules);
            var new' := ReadBytes(Frame(AllTableLines(groups, order, listing)), rules);
            && old'.tables.groups == new'.tables.groups == groups
            && (old'.clean <==> forall s :: s in groups ==> PositiveLines(groups[s]))
  {
    hide Coherent, Distinct, WellListed, AllWritable, AllUnmistaken, ReadLines, LineSplitter.AllLines, LegacyTable,
         PositiveLines, Sound, Frame, AllLineFree, TableLines, SummaryLines;
    ListedToo(groups, order, listing);
    var lines := LegacyTable(groups, order, listing, |order|);
    LegacyTableRead(groups, gi, order, listing, |order|, rules);
    LegacyTableFree(groups, order, listing, |order|);
    LinesComeBack(lines);
    RoundTripIff(groups, gi, order, listing, rules);
    assert order[..|order|] == order;
  }

  // ----- A mistaken alias -----

  /** Without an end, an alias `2,f` is read as the end 2 and the alias `f`. */
  lemma MistakenAlias(rules: Rules)
    ensures var r := ReadLines(FRESH_READING, [FnText("1", None, "2,f")], rules);
            "1" in r.tables.groups && r.tables.groups["1"].end == Some("2")
                && r.tables.groups["1"].aliases == map["f" := ZERO]
  {
    hide Trimmed, ParseFn, GroupOf, IsDigits;
    var line := FnText("1", None, "2,f");
    assert line == "FN:1,2,f" && line[3..] == "1,2,f";
    assert FnPayload("1", Some("2"), "f") == "1,2,f";
    OneAndTwo();
    FnWithEnd("1", "2", "f");
    FnClass(line);
    TrimmedLine(line);
    assert [line][..0] == [];
    assert "f" in map["f" := ZERO];
    GroupOfAliases("1", Some("2"), map["f" := ZERO]);
  }

  lemma OneAndTwo()
    ensures IsDigits("1") && IsDigits("2") && ',' !in "1"
  {}

  lemma TrimmedLine(line: string)
    requires line != [] && !IsSpace(line[|line| - 1])
    ensures Trimmed(line) == line
  {}
}
