/**
 Reading the function records of one section from the bytes of a tracefile: lines are split and
 trimmed, classified by their tags, and applied to the function table. Other records,
 and whatever follows the section, are outside this model: they may be diagnosed or stop the
 parser, but they do not touch the table.
 */
module FunctionReader {
  import opened Wrappers
  import opened Text
  import opened Tracefile
  import opened Counters
  import opened Ends
  import opened Functions
  import opened FunctionRecords
  import LineSplitter

  // ----- Classification -----

  datatype LineClass =
    | Ignored | Boundary | Foreign
    | FnlLine(payload: string) | FnaLine(payload: string) | FnLine(payload: string) | FndaLine(payload: string)

  /** `classify_line`, as far as it tells function records from the rest. `SF`, `KF` and
      `end_of_record` end the section. */
  function Classify(line: string): LineClass {
    if line == [] || line[0] == '#' then Ignored
    else if Tagged(line, "SF:") || Tagged(line, "KF:") then Boundary
    else if Tagged(line, "TN:") then Foreign
    else if Tagged(line, "end_of_record") then Boundary
    else if Tagged(line, "FNDA:") then FndaLine(line[5..])
    else if Tagged(line, "FNL:") then FnlLine(line[4..])
    else if Tagged(line, "FNA:") then FnaLine(line[4..])
    else if Tagged(line, "FNF") || Tagged(line, "FNH") then Ignored
    else if Tagged(line, "FN:") then FnLine(line[3..])
    else Foreign
  }

  /** What a record that is no function record does to the parser. */
  datatype Effect = Silent | Diagnosed | Fatal

  // ----- The table as a value -----

  datatype Tables = Tables(groups: Groups, index: Index)

  /** What the last of a list of lines does that are no function records of the section, while the
      tables are these. */
  datatype Rules = Rules(foreign: (seq<string>, Tables) -> Effect)

  const EMPTY_TABLES := Tables(map[], map[])

  ghost function With(t: Tables, start: Line, end: Option<Line>, aliases: Aliases, alias: Name): Tables
    requires alias in aliases
  {
    Tables(t.groups[start := GroupOf(start, end, aliases)], t.index[alias := start])
  }

  predicate Elsewhere(t: Tables, start: Line, alias: Name) {
    alias in t.index && t.index[alias] != start
  }

  /** The aliases at a start once an alias is certain to be there. */
  function Ensured(groups: Groups, start: Line, alias: Name): (aliases: Aliases)
    ensures alias in aliases
  {
    if start !in groups then map[alias := ZERO]
    else if alias in groups[start].aliases then groups[start].aliases
    else groups[start].aliases[alias := ZERO]
  }

  function EnsuredEnd(groups: Groups, start: Line, end: Option<Line>): Option<Line> {
    if start in groups then WiderEnd(groups[start].end, end) else end
  }

  /** `ensure_group`. */
  ghost function EnsureIn(t: Tables, start: Line, alias: Name, end: Option<Line>)
    : Option<Tables>
  {
    if Elsewhere(t, start, alias) then None
    else Some(With(t, start, EnsuredEnd(t.groups, start, end), Ensured(t.groups, start, alias), alias))
  }

  /** `insert_alias_at`. */
  ghost function InsertIn(t: Tables, start: Line, alias: Name, count: Count): Option<Tables> {
    if Elsewhere(t, start, alias) || !Addable(AliasesAt(t.groups, start), alias, count) then None
    else
      var aliases := Added(AliasesAt(t.groups, start), alias, count);
      assert alias in aliases;
      Some(With(t, start, if start in t.groups then t.groups[start].end else None, aliases, alias))
  }

  // ----- The reader as a function -----

  type FnlIndex = map<nat, FnlFields>

  /** `clean` while there is no diagnostic, `live` while the section is being read; `others` are
      the lines that were not for its functions. */
  datatype Reading = Reading(tables: Tables, fnl: FnlIndex, clean: bool, live: bool, others: seq<string>)

  const FRESH_READING := Reading(EMPTY_TABLES, map[], true, true, [])

  function Diagnose(st: Reading): Reading {
    st.(clean := false)
  }

  function Stop(st: Reading): Reading {
    st.(clean := false, live := false)
  }

  function FnlStep(st: Reading, payload: string): Reading {
    match ParseFnl(payload)
    case None => Diagnose(st)
    case Some(f) => if f.index in st.fnl then Stop(st) else st.(fnl := st.fnl[f.index := f])
  }

  /** A table that was changed, or a diagnostic in its place. */
  function Take(st: Reading, t: Option<Tables>): Reading {
    match t case None => Diagnose(st) case Some(tables) => st.(tables := tables)
  }

  ghost function FnaStep(st: Reading, payload: string, rules: Rules): Reading {
    match ParseFna(payload)
    case None => Diagnose(st)
    case Some(f) =>
      if f.index !in st.fnl then Stop(st)
      else
        var fnl := st.fnl[f.index];
        match EnsureIn(st.tables, fnl.start, f.alias, fnl.end)
        case None => Diagnose(st)
        case Some(t) => Take(st.(tables := t), InsertIn(t, fnl.start, f.alias, CountOf(f.count)))
  }

  ghost function FnStep(st: Reading, payload: string, rules: Rules): Reading {
    match ParseFn(payload)
    case None => Diagnose(st)
    case Some(f) =>
      var next := Take(st, EnsureIn(st.tables, f.start, f.name, f.end));
      if NotPositive(f.start) || (f.end.Some? && NotPositive(f.end.value)) then Diagnose(next) else next
  }

  ghost function FndaStep(st: Reading, payload: string): Reading {
    match ParseFnda(payload)
    case None => Diagnose(st)
    case Some(f) =>
      if f.name !in st.tables.index then Diagnose(st)
      else Take(st, InsertIn(st.tables, st.tables.index[f.name], f.name, CountOf(f.count)))
  }

  /** A line that leaves the functions of the section alone. */
  function OtherStep(st: Reading, line: string, rules: Rules): Reading {
    var next := st.(others := st.others + [line]);
    match rules.foreign(next.others, st.tables)
    case Silent => next
    case Diagnosed => Diagnose(next)
    case Fatal => Stop(next)
  }

  ghost function LineStep(st: Reading, line: string, rules: Rules): Reading {
    if !st.live then OtherStep(st, line, rules)
    else match Classify(line)
      case Ignored => st
      case Boundary => OtherStep(st.(live := false), line, rules)
      case Foreign => OtherStep(st, line, rules)
      case FnlLine(payload) => FnlStep(st, payload)
      case FnaLine(payload) => FnaStep(st, payload, rules)
      case FnLine(payload) => FnStep(st, payload, rules)
      case FndaLine(payload) => FndaStep(st, payload)
  }

  /** Raw lines, each trimmed before it is classified. */
  ghost function ReadLines(st: Reading, lines: seq<string>, rules: Rules): Reading {
    if lines == [] then st
    else LineStep(ReadLines(st, lines[..|lines| - 1], rules), Trimmed(lines[|lines| - 1]), rules)
  }

  function Contents(lines: seq<LineSplitter.RawLine>): (r: seq<string>)
    ensures |r| == |lines| && forall i :: 0 <= i < |lines| ==> r[i] == lines[i].bytes
  {
    seq(|lines|, i requires 0 <= i < |lines| => lines[i].bytes)
  }

  ghost function ReadBytes(input: string, rules: Rules): Reading {
    ReadLines(FRESH_READING, Contents(LineSplitter.AllLines(input)), rules)
  }

  // ----- The reader in place -----

  class Section {
    const functions: Table
    var fnlIndex: FnlIndex
    var clean: bool
    var live: bool
    var others: seq<string>

    constructor ()
      ensures fresh(functions) && functions.Valid() && State() == FRESH_READING
    {
      functions := new Table();
      fnlIndex, clean, live, others := map[], true, true, [];
    }

    ghost function State(): Reading
      reads this, functions
    {
      Reading(Tables(functions.byStart, functions.byAlias), fnlIndex, clean, live, others)
    }

    /** `apply_fnl`. */
    method ApplyFnl(payload: string)
      modifies this
      ensures State() == FnlStep(old(State()), payload)
    {
      var fields := ParseFnl(payload);
      if fields.None? {
        clean := false;
      } else if fields.value.index in fnlIndex {
        clean, live := false, false;
      } else {
        fnlIndex := fnlIndex[fields.value.index := fields.value];
      }
    }

    /** `apply_fna`: the group of the index gets the alias, first at zero if it is new, and then
        the count is added. */
    method ApplyFna(payload: string, rules: Rules)
      requires functions.Valid()
      modifies this, functions
      ensures functions.Valid() && State() == FnaStep(old(State()), payload, rules)
    {
      hide ParseFna, Coherent, EnsureIn, InsertIn, Coerced;
      var parsed := ParseFna(payload);
      if parsed.None? {
        clean := false;
        return;
      }
      var fna := parsed.value;
      if fna.index !in fnlIndex {
        clean, live := false, false;
        return;
      }
      var fnl := fnlIndex[fna.index];
      var ok := Ensure(fnl.start, fna.alias, fnl.end);
      if !ok {
        clean := false;
        return;
      }
      ok := Insert(fnl.start, fna.alias, CountOf(fna.count));
      if !ok {
        clean := false;
      }
    }

    /** `apply_fn`. */
    method ApplyFn(payload: string, rules: Rules)
      requires functions.Valid()
      modifies this, functions
      ensures functions.Valid() && State() == FnStep(old(State()), payload, rules)
    {
      hide ParseFn, Coherent, EnsureIn;
      var parsed := ParseFn(payload);
      if parsed.None? {
        clean := false;
        return;
      }
      var f := parsed.value;
      var ok := Ensure(f.start, f.name, f.end);
      if !ok || NotPositive(f.start) || (f.end.Some? && NotPositive(f.end.value)) {
        clean := false;
      }
    }

    /** `apply_fnda`. */
    method ApplyFnda(payload: string)
      requires functions.Valid()
      modifies this, functions
      ensures functions.Valid() && State() == FndaStep(old(State()), payload)
    {
      hide ParseFnda, Coherent, InsertIn, Coerced;
      var parsed := ParseFnda(payload);
      if parsed.None? || parsed.value.name !in functions.byAlias {
        clean := false;
        return;
      }
      var ok := Insert(functions.byAlias[parsed.value.name], parsed.value.name, CountOf(parsed.value.count));
      if !ok {
        clean := false;
      }
    }

    method Ensure(start: Line, alias: Name, end: Option<Line>) returns (ok: bool)
      requires functions.Valid()
      modifies functions
      ensures functions.Valid()
      ensures var t := EnsureIn(old(State()).tables, start, alias, end);
              ok == t.Some? && State().tables == if ok then t.value else old(State()).tables
    {
      hide Coherent, GroupValid;
      var error := functions.EnsureGroup(start, alias, end);
      ok := error.None?;
      if ok {
        GroupAt(functions.byStart, functions.byAlias, start);
      }
    }

    method Insert(start: Line, alias: Name, count: Count) returns (ok: bool)
      requires functions.Valid()
      modifies functions
      ensures functions.Valid()
      ensures var t := InsertIn(old(State()).tables, start, alias, count);
              ok == t.Some? && State().tables == if ok then t.value else old(State()).tables
    {
      hide Coherent, GroupValid, Plus;
      var error := functions.InsertAliasAt(start, alias, count);
      ok := error.None?;
      if ok {
        GroupAt(functions.byStart, functions.byAlias, start);
      }
    }

    method ApplyOther(line: string, rules: Rules)
      modifies this
      ensures State() == OtherStep(old(State()), line, rules)
    {
      others := others + [line];
      match rules.foreign(others, Tables(functions.byStart, functions.byAlias)) {
        case Silent =>
        case Diagnosed => clean := false;
        case Fatal => clean, live := false, false;
      }
    }

    /** One trimmed line. */
    method ApplyLine(line: string, rules: Rules)
      requires functions.Valid()
      modifies this, functions
      ensures functions.Valid() && State() == LineStep(old(State()), line, rules)
    {
      hide Classify, Coherent, FnlStep, FnaStep, FnStep, FndaStep, OtherStep;
      if !live {
        ApplyOther(line, rules);
        return;
      }
      match Classify(line) {
        case Ignored =>
        case Boundary =>
          live := false;
          ApplyOther(line, rules);
        case Foreign => ApplyOther(line, rules);
        case FnlLine(payload) => ApplyFnl(payload);
        case FnaLine(payload) => ApplyFna(payload, rules);
        case FnLine(payload) => ApplyFn(payload, rules);
        case FndaLine(payload) => ApplyFnda(payload);
      }
    }
  }

  lemma GroupAt(groups: Groups, index: Index, start: Line)
    requires Coherent(groups, index) && start in groups
    ensures groups[start].aliases != map[]
    ensures groups[start] == GroupOf(start, groups[start].end, groups[start].aliases)
  {
    hide GroupValid;
    ValidGroupIs(groups[start]);
  }

  /** The section's share of `parse_all`: split, trim, classify and apply, line by line. */
  method ReadSection(chunks: seq<string>, rules: Rules) returns (section: Section)
    ensures fresh(section) && fresh(section.functions) && section.functions.Valid()
    ensures section.State() == ReadBytes(LineSplitter.Concat(chunks), rules)
  {
    hide Coherent, LineStep;
    section := new Section();
    var lines := LineSplitter.SplitChunks(chunks);
    ghost var texts := Contents(lines);
    for k := 0 to |lines|
      invariant fresh(section) && fresh(section.functions) && section.functions.Valid()
      invariant section.State() == ReadLines(FRESH_READING, texts[..k], rules)
    {
      var line := LineSplitter.TrimTrailing(lines[k].bytes);
      assert texts[..k + 1][..k] == texts[..k];
      section.ApplyLine(line, rules);
    }
    assert texts[..|lines|] == texts;
  }

  // ----- What a table that was read is like -----

  /** An alias and its count as a line can carry them. */
  ghost predicate Carries(alias: Name, count: Count) {
    && alias != [] && LineFree(alias) && !IsSpace(alias[|alias| - 1])
    && Canonical(count)
  }

  /** What a group must be like for the format to carry it. */
  ghost predicate Writable(g: Group) {
    && NumericLines(g)
    && forall a :: a in g.aliases ==> Carries(a, g.aliases[a])
  }

  ghost predicate AllWritable(groups: Groups) {
    forall s :: s in groups ==> Writable(groups[s])
  }

  ghost predicate FnlSound(fnl: FnlIndex) {
    forall i :: i in fnl ==> IsDigits(fnl[i].start) && (fnl[i].end.Some? ==> IsDigits(fnl[i].end.value))
  }

  ghost predicate TablesSound(t: Tables) {
    Coherent(t.groups, t.index) && AllWritable(t.groups)
  }

  ghost predicate Sound(st: Reading) {
    TablesSound(st.tables) && FnlSound(st.fnl)
  }

  lemma WithSound(t: Tables, start: Line, end: Option<Line>, aliases: Aliases, alias: Name)
    requires TablesSound(t) && !Elsewhere(t, start, alias) && alias in aliases
    requires aliases.Keys == AliasesAt(t.groups, start).Keys + {alias}
    requires Writable(GroupOf(start, end, aliases))
    ensures TablesSound(With(t, start, end, aliases, alias))
  {
    hide Coherent, Writable, GroupValid;
    GroupGrows(t.groups, t.index, GroupOf(start, end, aliases), alias);
  }

  lemma EnsureSound(t: Tables, start: Line, alias: Name, end: Option<Line>)
    requires TablesSound(t) && IsDigits(start) && (end.Some? ==> IsDigits(end.value)) && Carries(alias, ZERO)
    requires EnsureIn(t, start, alias, end).Some?
    ensures TablesSound(EnsureIn(t, start, alias, end).value)
    ensures var u := EnsureIn(t, start, alias, end).value; start in u.groups && alias in u.groups[start].aliases
  {
    hide Coherent, Carries, GroupValid;
    var aliases := Ensured(t.groups, start, alias);
    assert aliases.Keys == AliasesAt(t.groups, start).Keys + {alias};
    assert Writable(GroupOf(start, EnsuredEnd(t.groups, start, end), aliases));
    WithSound(t, start, EnsuredEnd(t.groups, start, end), aliases, alias);
  }

  /** A count is added only to an alias that is already there. */
  lemma InsertSound(t: Tables, start: Line, alias: Name, text: string)
    requires TablesSound(t) && start in t.groups && alias in t.groups[start].aliases
    requires InsertIn(t, start, alias, CountOf(text)).Some?
    ensures TablesSound(InsertIn(t, start, alias, CountOf(text)).value)
  {
    hide Coherent, GroupValid, Canonical, Plus, CountOf;
    var aliases := t.groups[start].aliases;
    var added := Added(aliases, alias, CountOf(text));
    assert added.Keys == aliases.Keys + {alias};
    AliasHome(t.groups, t.index, start, alias);
    CountSound(aliases[alias], text);
    assert Writable(t.groups[start]);
    forall a | a in added ensures Carries(a, added[a]) {
      assert Carries(a, aliases[a]);
    }
    WithSound(t, start, t.groups[start].end, added, alias);
  }

  lemma CountSound(c: Count, text: string)
    requires Canonical(c) && Plus(c, CountOf(text)).Some?
    ensures Canonical(Plus(c, CountOf(text)).value)
  {
    PlusCanonical(c, Stripped(text));
  }

  /** A trimmed line without line endings. */
  predicate IsLine(line: string) {
    LineFree(line) && (line != [] ==> !IsSpace(line[|line| - 1]))
  }

  lemma EndOfLine(line: string, name: Name)
    requires IsLine(line) && name != [] && |name| <= |line| && name == line[|line| - |name|..]
    ensures Carries(name, ZERO)
  {
    ZeroCanonical();
    assert forall i :: 0 <= i < |name| ==> name[i] == line[|line| - |name| + i];
  }

  /** The end of the end of a text is its end. */
  lemma EndOfEnd(s: string, t: string, u: string)
    requires |t| <= |s| && t == s[|s| - |t|..] && |u| <= |t| && u == t[|t| - |u|..]
    ensures u == s[|s| - |u|..]
  {}

  lemma PayloadName(line: string, tag: nat, name: Name)
    requires IsLine(line) && tag <= |line| && name != []
    requires |name| <= |line| - tag && name == line[tag..][|line| - tag - |name|..]
    ensures Carries(name, ZERO)
  {
    EndOfEnd(line, line[tag..], name);
    EndOfLine(line, name);
  }

  lemma FnaName(payload: string)
    requires ParseFna(payload).Some?
    ensures var name := ParseFna(payload).value.alias;
            name != [] && |name| <= |payload| && name == payload[|payload| - |name|..]
  {
    hide Split;
    LastField(payload, 2);
  }

  lemma FnName(payload: string)
    requires ParseFn(payload).Some?
    ensures var f := ParseFn(payload).value;
            && f.name != [] && |f.name| <= |payload| && f.name == payload[|payload| - |f.name|..]
            && IsDigits(f.start) && (f.end.Some? ==> IsDigits(f.end.value))
  {
    hide Split;
    LastField(payload, 1);
    var rest := Split(payload, ',', 1)[1];
    LastField(rest, 1);
    if ParseFn(payload).value.end.Some? {
      EndOfEnd(payload, rest, ParseFn(payload).value.name);
    }
  }

  lemma FnaStepSound(st: Reading, line: string, payload: string, rules: Rules)
    requires Sound(st) && IsLine(line) && |line| >= 4 && payload == line[4..]
    ensures Sound(FnaStep(st, payload, rules))
  {
    hide TablesSound, ParseFna, EnsureIn, InsertIn, Carries, CountOf;
    if ParseFna(payload).Some? && ParseFna(payload).value.index in st.fnl {
      var f := ParseFna(payload).value;
      var fnl := st.fnl[f.index];
      FnaName(payload);
      PayloadName(line, 4, f.alias);
      var t := EnsureIn(st.tables, fnl.start, f.alias, fnl.end);
      if t.Some? {
        EnsureSound(st.tables, fnl.start, f.alias, fnl.end);
        if InsertIn(t.value, fnl.start, f.alias, CountOf(f.count)).Some? {
          InsertSound(t.value, fnl.start, f.alias, f.count);
        }
      }
    }
  }

  lemma FnStepSound(st: Reading, line: string, payload: string, rules: Rules)
    requires Sound(st) && IsLine(line) && |line| >= 3 && payload == line[3..]
    ensures Sound(FnStep(st, payload, rules))
  {
    hide TablesSound, ParseFn, EnsureIn, Carries;
    if ParseFn(payload).Some? {
      var f := ParseFn(payload).value;
      FnName(payload);
      PayloadName(line, 3, f.name);
      if EnsureIn(st.tables, f.start, f.name, f.end).Some? {
        EnsureSound(st.tables, f.start, f.name, f.end);
      }
    }
  }

  lemma FndaStepSound(st: Reading, payload: string)
    requires Sound(st)
    ensures Sound(FndaStep(st, payload))
  {
    hide ParseFnda, InsertIn, CountOf, Coherent, AllWritable;
    if ParseFnda(payload).Some? && ParseFnda(payload).value.name in st.tables.index {
      var f := ParseFnda(payload).value;
      IndexedHome(st.tables.groups, st.tables.index, f.name);
      if InsertIn(st.tables, st.tables.index[f.name], f.name, CountOf(f.count)).Some? {
        InsertSound(st.tables, st.tables.index[f.name], f.name, f.count);
      }
    }
  }

  lemma FnlStepSound(st: Reading, payload: string)
    requires Sound(st)
    ensures Sound(FnlStep(st, payload))
  {
    hide TablesSound, Split;
  }

  /** Every line keeps a sound reading sound: nothing can be read that could not be written. */
  lemma LineStepSound(st: Reading, line: string, rules: Rules)
    requires Sound(st) && IsLine(line)
    ensures Sound(LineStep(st, line, rules))
  {
    hide TablesSound, FnlSound, FnlStep, FnaStep, FnStep, FndaStep, IsLine;
    match Classify(line)
    case FnlLine(payload) => FnlStepSound(st, payload);
    case FnaLine(payload) => FnaStepSound(st, line, payload, rules);
    case FnLine(payload) => FnStepSound(st, line, payload, rules);
    case FndaLine(payload) => FndaStepSound(st, payload);
    case _ =>
  }

  lemma TrimmedIsLine(bytes: string)
    requires LineFree(bytes)
    ensures IsLine(Trimmed(bytes))
  {
    hide Trimmed;
    var t := Trimmed(bytes);
    assert forall i :: 0 <= i < |t| ==> t[i] == bytes[i];
  }

  lemma {:induction false} ReadLinesSound(st: Reading, lines: seq<string>, rules: Rules)
    requires Sound(st) && forall i :: 0 <= i < |lines| ==> LineFree(lines[i])
    ensures Sound(ReadLines(st, lines, rules))
  {
    hide LineStep, Trimmed, LineFree, IsLine, Sound;
    if lines != [] {
      ReadLinesSound(st, lines[..|lines| - 1], rules);
      TrimmedIsLine(lines[|lines| - 1]);
      LineStepSound(ReadLines(st, lines[..|lines| - 1], rules), Trimmed(lines[|lines| - 1]), rules);
    }
  }

  lemma FreshSound()
    ensures Sound(FRESH_READING)
  {}

  /** Whatever bytes are read, the table holds only groups that the format can carry. */
  lemma ReadIsWritable(input: string, rules: Rules)
    ensures AllWritable(ReadBytes(input, rules).tables.groups)
    ensures Coherent(ReadBytes(input, rules).tables.groups, ReadBytes(input, rules).tables.index)
  {
    hide ReadLines, LineSplitter.AllLines, AllWritable, Coherent, LineFree;
    LineSplitter.SplitIsWell(input);
    FreshSound();
    ReadLinesSound(FRESH_READING, Contents(LineSplitter.AllLines(input)), rules);
  }
}
