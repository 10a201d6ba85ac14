/** What one line of a section does to the table that is being read, told from its text. */
module ReaderSteps {
  import opened Wrappers
  import opened Decimal
  import opened Tracefile
  import opened Counters
  import opened Ends
  import opened Functions
  import opened FunctionRecords
  import opened FunctionReader

  // ----- Tags -----

  /** Function records are told by their tags; summaries and comments are ignored; a source file or
      the end of a record ends the section. */
  lemma TagsMean(rest: string)
    ensures Classify("FNL:" + rest) == FnlLine(rest) && Classify("FNA:" + rest) == FnaLine(rest)
    ensures Classify("FN:" + rest) == FnLine(rest) && Classify("FNDA:" + rest) == FndaLine(rest)
    ensures Classify("FNF" + rest) == Ignored && Classify("FNH" + rest) == Ignored
    ensures Classify("") == Ignored && Classify("#" + rest) == Ignored
    ensures Classify("SF:" + rest) == Boundary && Classify("KF:" + rest) == Boundary
    ensures Classify("end_of_record" + rest) == Boundary
  {
    hide Classify;
    FnlTag(rest);
    FnaTag(rest);
    FnTag(rest);
    FndaTag(rest);
    SummaryTags(rest);
    BoundaryTags(rest);
  }

  lemma FnlTag(rest: string)
    ensures Classify("FNL:" + rest) == FnlLine(rest)
  {
    Untag("FNL:", rest);
    var line := "FNL:" + rest;
    assert line[0] == 'F' && line[1] == 'N' && line[2] == 'L';
  }

  lemma FnaTag(rest: string)
    ensures Classify("FNA:" + rest) == FnaLine(rest)
  {
    Untag("FNA:", rest);
    var line := "FNA:" + rest;
    assert line[0] == 'F' && line[1] == 'N' && line[2] == 'A';
  }

  lemma FnTag(rest: string)
    ensures Classify("FN:" + rest) == FnLine(rest)
  {
    Untag("FN:", rest);
    var line := "FN:" + rest;
    assert line[0] == 'F' && line[1] == 'N' && line[2] == ':';
  }

  lemma FndaTag(rest: string)
    ensures Classify("FNDA:" + rest) == FndaLine(rest)
  {
    Untag("FNDA:", rest);
    var line := "FNDA:" + rest;
    assert line[0] == 'F' && line[1] == 'N' && line[2] == 'D';
  }

  lemma SummaryTags(rest: string)
    ensures Classify("FNF" + rest) == Ignored && Classify("FNH" + rest) == Ignored
    ensures Classify("") == Ignored && Classify("#" + rest) == Ignored
  {
    var found, hit := "FNF" + rest, "FNH" + rest;
    Untag("FNF", rest);
    Untag("FNH", rest);
    assert found[0] == 'F' && found[1] == 'N' && found[2] == 'F';
    assert hit[0] == 'F' && hit[1] == 'N' && hit[2] == 'H';
    assert ("#" + rest)[0] == '#';
  }

  lemma BoundaryTags(rest: string)
    ensures Classify("SF:" + rest) == Boundary && Classify("KF:" + rest) == Boundary
    ensures Classify("end_of_record" + rest) == Boundary
  {
    var source, known, end := "SF:" + rest, "KF:" + rest, "end_of_record" + rest;
    Untag("SF:", rest);
    Untag("KF:", rest);
    Untag("end_of_record", rest);
    assert source[0] == 'S' && known[0] == 'K' && end[0] == 'e';
  }

  lemma Untag(tag: string, rest: string)
    ensures tag <= tag + rest && (tag + rest)[|tag|..] == rest
    ensures forall i :: 0 <= i < |tag| ==> (tag + rest)[i] == tag[i]
  {}

  /** Every line with another beginning is foreign. */
  lemma ForeignLines(line: string)
    requires line != [] && line[0] != '#'
    requires !("FNL:" <= line) && !("FNA:" <= line) && !("FN:" <= line) && !("FNDA:" <= line)
    requires !("FNF" <= line) && !("FNH" <= line)
    requires !("SF:" <= line) && !("KF:" <= line) && !("end_of_record" <= line)
    ensures Classify(line) == Foreign
  {}

  // ----- FNL -----

  /** The index a digit string stands for; one that needs more than 64 bits stands for zero. */
  function IndexNumber(digits: string): nat
    requires AllDigits(digits)
  {
    if Value(digits) >= 0x1_0000_0000_0000_0000 then 0 else Value(digits)
  }

  function FnlRecordText(index: string, start: Line, end: Option<Line>): string {
    index + [','] + (if end.Some? then start + [','] + end.value else start)
  }

  /** `FNL:index,start[,end]`: remembered if the lines are numbers and the index is new; a repeated
      index stops the section, anything else is diagnosed. */
  lemma FnlRecord(st: Reading, index: string, start: Line, end: Option<Line>, rules: Rules)
    requires st.live && IsDigits(index) && ',' !in start && (end.Some? ==> ',' !in end.value)
    ensures var r := LineStep(st, "FNL:" + FnlRecordText(index, start, end), rules);
            if !IsDigits(start) || (end.Some? && !IsDigits(end.value)) then r == st.(clean := false)
            else if IndexNumber(index) in st.fnl then r == st.(clean := false, live := false)
            else r == st.(fnl := st.fnl[IndexNumber(index) := FnlFields(IndexNumber(index), start, end)])
  {
    hide Classify, Split, IsDigits, Value;
    TagsMean(FnlRecordText(index, start, end));
    FnlFieldsOf(index, start, end);
  }

  lemma FnlFieldsOf(index: string, start: Line, end: Option<Line>)
    requires IsDigits(index) && ',' !in start && (end.Some? ==> ',' !in end.value)
    ensures ParseFnl(FnlRecordText(index, start, end)) ==
            if IsDigits(start) && (end.Some? ==> IsDigits(end.value))
            then Some(FnlFields(IndexNumber(index), start, end))
            else None
  {
    hide Split, IsDigits, Value;
    var payload := FnlRecordText(index, start, end);
    IndexHasNoComma(index);
    if end.Some? {
      SplitStep(index, ',', start + [','] + end.value, |payload|);
      SplitStep(start, ',', end.value, |payload| - 1);
      SplitWhole(end.value, ',', |payload| - 2);
      var parts := [index, start, end.value];
      assert Split(payload, ',', |payload|) == parts;
      assert parts[0] == index && parts[1] == start && parts[2] == end.value;
    } else {
      SplitStep(index, ',', start, |payload|);
      SplitWhole(start, ',', |payload| - 1);
      var parts := [index, start];
      assert Split(payload, ',', |payload|) == parts;
      assert parts[0] == index && parts[1] == start;
    }
  }

  lemma IndexHasNoComma(index: string)
    requires IsDigits(index)
    ensures ',' !in index && AllDigits(index) && index != []
  {
    DigitsNoComma(index);
  }

  // ----- FNA -----

  /** The group at `start` after a record: the alias has this count, everything else is as it was. */
  ghost predicate Gained(t: Tables, u: Tables, start: Line, end: Option<Line>, alias: Name, count: Count) {
    && u.index == t.index[alias := start] && start in u.groups
    && (forall s :: s != start ==> (s in u.groups <==> s in t.groups) && (s in t.groups ==> u.groups[s] == t.groups[s]))
    && u.groups[start].start == start && u.groups[start].end == end && GroupValid(u.groups[start])
    && u.groups[start].aliases == AliasesAt(t.groups, start)[alias := count]
  }

  /** The count an alias has at a start, or zero. */
  function CountAt(t: Tables, start: Line, alias: Name): Count {
    if alias in AliasesAt(t.groups, start) then AliasesAt(t.groups, start)[alias] else ZERO
  }

  function EndAt(t: Tables, start: Line, end: Option<Line>): Option<Line> {
    if start in t.groups then WiderEnd(t.groups[start].end, end) else end
  }

  lemma EnsureGains(t: Tables, start: Line, alias: Name, end: Option<Line>)
    ensures EnsureIn(t, start, alias, end).Some? <==> !(alias in t.index && t.index[alias] != start)
    ensures EnsureIn(t, start, alias, end).Some? ==>
              Gained(t, EnsureIn(t, start, alias, end).value, start, EndAt(t, start, end), alias,
                     CountAt(t, start, alias))
  {
    hide GroupValid, WiderEnd;
  }

  /** Adding a count to an alias that is there. */
  lemma InsertGains(t: Tables, u: Tables, start: Line, end: Option<Line>, alias: Name, base: Count, count: Count)
    requires Gained(t, u, start, end, alias, base)
    ensures InsertIn(u, start, alias, count).Some? <==> Plus(base, count).Some?
    ensures Plus(base, count).Some? ==>
              Gained(t, InsertIn(u, start, alias, count).value, start, end, alias, Plus(base, count).value)
  {
    hide GroupValid, Plus;
  }

  /** `FNA:index,count,alias`: the alias belongs to the lines of the index. An unknown index stops the
      section; an empty alias, or one of another group, is diagnosed and changes nothing; a count
      that does not add up is diagnosed and leaves the alias with the count it had. */
  lemma FnaRecord(st: Reading, index: string, count: string, alias: Name, rules: Rules)
    requires st.live && IsDigits(index) && ',' !in count
    ensures var r := LineStep(st, "FNA:" + (index + [','] + (count + [','] + alias)), rules);
            if alias == [] then r == st.(clean := false)
            else if IndexNumber(index) !in st.fnl then r == st.(clean := false, live := false)
            else
              var lines := st.fnl[IndexNumber(index)];
              if alias in st.tables.index && st.tables.index[alias] != lines.start then r == st.(clean := false)
              else
                var base, end := CountAt(st.tables, lines.start, alias), EndAt(st.tables, lines.start, lines.end);
                var total := Plus(base, CountOf(count));
                && r == st.(tables := r.tables, clean := st.clean && total.Some?)
                && Gained(st.tables, r.tables, lines.start, end, alias, if total.Some? then total.value else base)
  {
    hide Classify, Split, IsDigits, Value, Plus, CountOf, Gained, EnsureIn, InsertIn, EndAt, CountAt;
    var payload := index + [','] + (count + [','] + alias);
    TagsMean(payload);
    IndexHasNoComma(index);
    SplitStep(index, ',', count + [','] + alias, 2);
    TwoFields(count, alias);
    var parts := [index, count, alias];
    assert Split(payload, ',', 2) == parts;
    assert parts[0] == index && parts[1] == count && parts[2] == alias;
    if alias != [] && IndexNumber(index) in st.fnl {
      var lines := st.fnl[IndexNumber(index)];
      EnsureGains(st.tables, lines.start, alias, lines.end);
      var t := EnsureIn(st.tables, lines.start, alias, lines.end);
      if t.Some? {
        InsertGains(st.tables, t.value, lines.start, EndAt(st.tables, lines.start, lines.end), alias,
                    CountAt(st.tables, lines.start, alias), CountOf(count));
      }
    }
  }

  // ----- FN and FNDA -----

  /** `FN:start[,end],name`: the name is ensured at its start, or diagnosed if it has another; a zero
      line is diagnosed but kept. */
  lemma FnRecord(st: Reading, start: Line, end: Option<Line>, name: Name, rules: Rules)
    requires st.live && IsDigits(start) && (end.Some? ==> IsDigits(end.value)) && name != []
    requires end.None? ==> !BeginsLikeEnd(name)
    ensures var r := LineStep(st, "FN:" + FnPayload(start, end, name), rules);
            var positive := Value(start) > 0 && (end.Some? ==> Value(end.value) > 0);
            if name in st.tables.index && st.tables.index[name] != start then r == st.(clean := false)
            else
              && r == st.(tables := r.tables, clean := st.clean && positive)
              && Gained(st.tables, r.tables, start, EndAt(st.tables, start, end), name, CountAt(st.tables, start, name))
  {
    hide Classify, ParseFn, FnPayload, IsDigits, Value, NotPositive, Gained, EnsureIn, EndAt, CountAt, BeginsLikeEnd;
    TagsMean(FnPayload(start, end, name));
    IndexHasNoComma(start);
    ZeroLine(start);
    if end.Some? {
      ZeroLine(end.value);
      FnWithEnd(start, end.value, name);
    } else {
      FnWithoutEnd(start, name);
    }
    EnsureGains(st.tables, start, name, end);
  }

  lemma ZeroLine(digits: string)
    requires IsDigits(digits)
    ensures AllDigits(digits) && (NotPositive(digits) <==> Value(digits) == 0)
  {
    hide Value;
    ZeroValue(digits);
  }

  /** Without a number in front or a name behind it, an `FN` record is diagnosed. */
  lemma BadFnRecord(st: Reading, start: Line, name: Name, rules: Rules)
    requires st.live && ',' !in start && (!IsDigits(start) || name == [])
    ensures LineStep(st, "FN:" + FnPayload(start, None, name), rules) == st.(clean := false)
  {
    hide Classify, Split, IsDigits;
    TagsMean(FnPayload(start, None, name));
    TwoFields(start, name);
  }

  /** `FNDA:count,name`: the count is added to a name that is known, at its start; an unknown or empty
      name, or a count that does not add up, is diagnosed and changes nothing. */
  lemma FndaRecord(st: Reading, count: string, name: Name, rules: Rules)
    requires st.live && Sound(st) && ',' !in count
    ensures var r := LineStep(st, "FNDA:" + FndaPayload(count, name), rules);
            if name == [] || name !in st.tables.index then r == st.(clean := false)
            else
              var start := st.tables.index[name];
              var total := Plus(CountAt(st.tables, start, name), CountOf(count));
              && start in st.tables.groups && name in st.tables.groups[start].aliases
              && if total.None? then r == st.(clean := false)
                 else
                   && r == st.(tables := r.tables)
                   && Gained(st.tables, r.tables, start, st.tables.groups[start].end, name, total.value)
  {
    hide Classify, ParseFnda, Plus, CountOf, GroupValid, AllWritable, FnlSound, Coherent;
    TagsMean(FndaPayload(count, name));
    FndaParses(count, name);
    if name in st.tables.index {
      IndexedHome(st.tables.groups, st.tables.index, name);
    }
  }

  // ----- Everything else -----

  /** A line that is not for the functions of the section leaves them alone; whether it is diagnosed
      or stops the parser depends on such lines alone, and on the tables. */
  lemma OtherLine(st: Reading, line: string, rules: Rules)
    requires !st.live || Classify(line) == Foreign || Classify(line) == Boundary
    ensures var r, effect := LineStep(st, line, rules), rules.foreign(st.others + [line], st.tables);
            && r.tables == st.tables && r.fnl == st.fnl && r.others == st.others + [line]
            && (r.clean <==> st.clean && effect == Silent)
            && (r.live <==> st.live && Classify(line) != Boundary && effect != Fatal)
  {
    hide Classify;
  }

  /** An ignored line does nothing to a section that is being read. */
  lemma IgnoredLine(st: Reading, line: string, rules: Rules)
    requires st.live && Classify(line) == Ignored
    ensures LineStep(st, line, rules) == st
  {
    hide Classify;
  }
}
