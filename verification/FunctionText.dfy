/**
 The function records of a table as bytes, and the check that reads them back: the same table
 comes back exactly when every group is one that the format can carry.
 */
module FunctionText {
  import opened Wrappers
  import opened Text
  import opened Decimal
  import opened Ordering
  import opened Counters
  import opened Functions
  import opened FunctionRecords
  import opened FunctionReader
  import LineSplitter

  const INDEX_LIMIT := 0x1_0000_0000_0000_0000

  // ----- Lines -----

  function FnlText(index: nat, g: Group): string {
    "FNL:" + FnlPayload(index, g)
  }

  function FnaText(index: nat, count: Count, alias: Name): string {
    "FNA:" + FnaPayload(index, count, alias)
  }

  predicate NamesOf(names: seq<Name>, g: Group) {
    forall i :: 0 <= i < |names| ==> names[i] in g.aliases
  }

  /** One `FNA` line for each of the first `n` names. */
  function AliasLines(index: nat, g: Group, names: seq<Name>, n: nat): seq<string>
    requires n <= |names| && NamesOf(names, g)
  {
    if n == 0 then []
    else AliasLines(index, g, names, n - 1) + [FnaText(index, g.aliases[names[n - 1]], names[n - 1])]
  }

  function GroupLines(index: nat, g: Group, names: seq<Name>): seq<string>
    requires NamesOf(names, g)
  {
    [FnlText(index, g)] + AliasLines(index, g, names, |names|)
  }

  type Listing = map<Line, seq<Name>>

  /** Every start of the order has its aliases listed. */
  predicate Listed(groups: Groups, order: seq<Line>, listing: Listing) {
    forall k :: 0 <= k < |order| ==>
      order[k] in groups && order[k] in listing && NamesOf(listing[order[k]], groups[order[k]])
  }

  /** The lines of the first `n` groups of the order. */
  function TableLines(groups: Groups, order: seq<Line>, listing: Listing, n: nat): seq<string>
    requires n <= |order| && Listed(groups, order, listing)
  {
    if n == 0 then []
    else
      TableLines(groups, order, listing, n - 1)
      + GroupLines(n - 1, groups[order[n - 1]], listing[order[n - 1]])
  }

  predicate IsHit(g: Group) {
    exists a :: a in g.aliases && IsPositive(g.aliases[a])
  }

  function Hits(groups: Groups): nat {
    |set s | s in groups && IsHit(groups[s])|
  }

  function SummaryLines(groups: Groups): seq<string> {
    ["FNF:" + Print(|groups|), "FNH:" + Print(Hits(groups))]
  }

  function AllTableLines(groups: Groups, order: seq<Line>, listing: Listing): seq<string>
    requires Listed(groups, order, listing)
  {
    TableLines(groups, order, listing, |order|) + SummaryLines(groups)
  }

  /** Each line ended by a line feed. */
  function Fed(lines: seq<string>): (r: seq<LineSplitter.RawLine>)
    ensures |r| == |lines| && forall i :: 0 <= i < |lines| ==> r[i] == LineSplitter.RawLine(lines[i], LineSplitter.Lf)
  {
    seq(|lines|, i requires 0 <= i < |lines| => LineSplitter.RawLine(lines[i], LineSplitter.Lf))
  }

  /** Framing is joining lines that all end in a line feed. */
  lemma {:induction false} FrameIsJoined(lines: seq<string>)
    ensures Frame(lines) == LineSplitter.Joined(Fed(lines))
  {
    if lines != [] {
      var init, last := lines[..|lines| - 1], lines[|lines| - 1];
      FrameIsJoined(init);
      assert Fed(lines)[..|lines| - 1] == Fed(init);
    }
  }

  // ----- Writing -----

  /** The aliases in byte order. */
  ghost predicate InOrder(names: seq<Name>, g: Group) {
    Distinct(names) && SortedBy(names, LexLeq) && forall a :: a in names <==> a in g.aliases
  }

  /** `write_functions`, for any order of the groups: the records of every group, its aliases in
      byte order, and the two summaries. */
  method WriteFunctions(groups: Groups, order: seq<Line>) returns (out: string, listing: Listing)
    requires forall k :: 0 <= k < |order| ==> order[k] in groups
    ensures forall k :: 0 <= k < |order| ==> order[k] in listing && InOrder(listing[order[k]], groups[order[k]])
    ensures Listed(groups, order, listing) && out == Frame(AllTableLines(groups, order, listing))
  {
    hide InOrder, Frame, GroupLines, NamesOf, IsHit;
    listing := ListAll(groups, order);
    out := "";
    ghost var lines: seq<string> := [];
    FrameNone();
    for k := 0 to |order|
      invariant lines == TableLines(groups, order, listing, k) && out == Frame(lines)
    {
      assert NamesOf(listing[order[k]], groups[order[k]]);
      out := WriteGroup(out, lines, k, groups[order[k]], listing[order[k]]);
      lines := lines + GroupLines(k, groups[order[k]], listing[order[k]]);
    }
    var found, hit := "FNF:" + Print(|groups|), "FNH:" + Print(Hits(groups));
    FrameSnoc(lines, found);
    FrameSnoc(lines + [found], hit);
    assert lines + [found] + [hit] == AllTableLines(groups, order, listing);
    out := out + (found + "\n") + (hit + "\n");
  }

  method WriteGroup(before: string, ghost lines: seq<string>, k: nat, g: Group, names: seq<Name>) returns (out: string)
    requires NamesOf(names, g) && before == Frame(lines)
    ensures out == Frame(lines + GroupLines(k, g, names))
  {
    hide Frame, FnlText, FnaText;
    FrameSnoc(lines, FnlText(k, g));
    out := before + (FnlText(k, g) + "\n");
    ghost var done := lines + [FnlText(k, g)];
    for m := 0 to |names|
      invariant done == lines + ([FnlText(k, g)] + AliasLines(k, g, names, m)) && out == Frame(done)
    {
      var line := FnaText(k, g.aliases[names[m]], names[m]);
      FrameSnoc(done, line);
      out := out + (line + "\n");
      done := done + [line];
    }
  }

  method ListAll(groups: Groups, order: seq<Line>) returns (listing: Listing)
    requires forall k :: 0 <= k < |order| ==> order[k] in groups
    ensures forall k :: 0 <= k < |order| ==> order[k] in listing && InOrder(listing[order[k]], groups[order[k]])
    ensures Listed(groups, order, listing)
  {
    hide InOrder, NamesOf;
    listing := map[];
    for k := 0 to |order|
      invariant forall i :: 0 <= i < k ==> order[i] in listing && InOrder(listing[order[i]], groups[order[i]])
      invariant forall i :: 0 <= i < k ==> NamesOf(listing[order[i]], groups[order[i]])
    {
      var names := ListAliases(groups[order[k]]);
      listing := listing[order[k] := names];
    }
  }

  method ListAliases(g: Group) returns (names: seq<Name>)
    ensures InOrder(names, g) && NamesOf(names, g)
  {
    hide SortedBy, Distinct;
    names := SortedList(g.aliases.Keys);
    assert forall i :: 0 <= i < |names| ==> names[i] in names;
  }

  // ----- Reading lines one after another -----

  lemma {:induction false} ReadAppend(st: Reading, a: seq<string>, b: seq<string>, rules: Rules)
    ensures ReadLines(st, a + b, rules) == ReadLines(ReadLines(st, a, rules), b, rules)
  {
    hide LineStep;
    if b == [] {
      assert a + b == a;
    } else {
      assert (a + b)[..|a + b| - 1] == a + b[..|b| - 1];
      ReadAppend(st, a, b[..|b| - 1], rules);
    }
  }

  lemma ReadOne(st: Reading, line: string, rules: Rules)
    requires IsLine(line)
    ensures ReadLines(st, [line], rules) == LineStep(st, line, rules)
  {
    hide LineStep;
    assert [line][..0] == [];
    TrimmedSame(line);
  }

  lemma TrimmedSame(line: string)
    requires IsLine(line)
    ensures Trimmed(line) == line
  {}

  /** Glueing a tag and plain fields in front keeps a line a line. */
  lemma GluedLine(front: string, rest: string)
    requires LineFree(front) && IsLine(rest) && rest != []
    ensures IsLine(front + rest)
  {}

  lemma DigitsAreText(s: string)
    requires AllDigits(s)
    ensures LineFree(s) && IsLine(s)
  {}

  lemma LineFreeField(front: string, field: string)
    requires LineFree(front) && LineFree(field)
    ensures LineFree(front + field + [','])
  {}

  lemma FnlFront(k: nat)
    ensures LineFree("FNL:" + Print(k) + [','])
  {
    hide Print;
    DigitsAreText(Print(k));
  }

  lemma FnlIsLine(k: nat, g: Group)
    requires Writable(g)
    ensures IsLine(FnlText(k, g)) && Classify(FnlText(k, g)) == FnlLine(FnlPayload(k, g))
  {
    hide Print, Carries, IsLine, LineFree, Classify;
    DigitsAreText(g.start);
    FnlFront(k);
    var front := "FNL:" + Print(k) + [','];
    if g.end.Some? {
      DigitsAreText(g.end.value);
      LineFreeField(front, g.start);
      GluedLine(front + g.start + [','], g.end.value);
      assert FnlText(k, g) == front + g.start + [','] + g.end.value;
    } else {
      GluedLine(front, g.start);
      assert FnlText(k, g) == front + g.start;
    }
    Retagged("FNL:", FnlPayload(k, g));
    FnlClass(FnlText(k, g));
  }

  lemma Retagged(tag: string, payload: string)
    ensures tag <= tag + payload && (tag + payload)[|tag|..] == payload
  {}

  lemma FnlClass(line: string)
    requires "FNL:" <= line
    ensures Classify(line) == FnlLine(line[4..])
  {
    assert line[0] == 'F' && line[1] == 'N' && line[2] == 'L';
  }

  lemma FnaClass(line: string)
    requires "FNA:" <= line
    ensures Classify(line) == FnaLine(line[4..])
  {
    assert line[0] == 'F' && line[1] == 'N' && line[2] == 'A';
  }

  lemma FnaIsLine(k: nat, count: Count, alias: Name)
    requires Carries(alias, count)
    ensures IsLine(FnaText(k, count, alias))
            && Classify(FnaText(k, count, alias)) == FnaLine(FnaPayload(k, count, alias))
  {
    hide Print, IsLine, Canonical;
    DigitsAreText(Print(k));
    CanonicalIsText(count);
    var front := "FNA:" + Print(k) + [','] + CountText(count) + [','];
    AliasIsLine(alias, count);
    GluedLine(front, alias);
    assert FnaText(k, count, alias) == front + alias;
    Retagged("FNA:", FnaPayload(k, count, alias));
    FnaClass(FnaText(k, count, alias));
  }

  lemma AliasIsLine(alias: Name, count: Count)
    requires Carries(alias, count)
    ensures IsLine(alias) && alias != []
  {}

  lemma CanonicalIsText(c: Count)
    requires Canonical(c)
    ensures LineFree(CountText(c))
  {
    CanonicalChars(c);
  }

  // ----- Reading a written group -----

  /** An `FNA` line with a new alias and a canonical count gives its group that alias and count. */
  lemma FnaFresh(st: Reading, k: nat, alias: Name, count: Count, rules: Rules)
    requires st.live && k < INDEX_LIMIT && k in st.fnl && alias !in st.tables.index && Carries(alias, count)
    requires Coherent(st.tables.groups, st.tables.index)
    ensures var start, groups := st.fnl[k].start, st.tables.groups;
            LineStep(st, FnaText(k, count, alias), rules) ==
            st.(tables := With(st.tables, start, EnsuredEnd(groups, start, st.fnl[k].end),
                               AliasesAt(groups, start)[alias := count], alias))
  {
    hide ParseFna, Classify, FnaText, FnaPayload, Canonical, Coherent, FnaStep, With;
    FnaIsLine(k, count, alias);
    CanonicalNoComma(count);
    FnaParses(k, count, alias);
    FnaStepFresh(st, FnaPayload(k, count, alias), k, alias, count, rules);
  }

  lemma FnaStepFresh(st: Reading, payload: string, k: nat, alias: Name, count: Count, rules: Rules)
    requires k in st.fnl && alias !in st.tables.index && Canonical(count)
    requires ParseFna(payload) == Some(FnaFields(k, CountText(count), alias))
    requires Coherent(st.tables.groups, st.tables.index)
    ensures var start, groups := st.fnl[k].start, st.tables.groups;
            FnaStep(st, payload, rules) ==
            st.(tables := With(st.tables, start, EnsuredEnd(groups, start, st.fnl[k].end),
                               AliasesAt(groups, start)[alias := count], alias))
  {
    hide ParseFna, Canonical, Coherent, With, InsertIn, CountOf, EnsuredEnd;
    var start, t := st.fnl[k].start, st.tables;
    if start in t.groups { AliasHome(t.groups, t.index, start, alias); }
    var zeroed := AliasesAt(t.groups, start)[alias := ZERO];
    assert Ensured(t.groups, start, alias) == zeroed;
    assert zeroed[alias := count] == AliasesAt(t.groups, start)[alias := count];
    InsertAfterEnsure(t, start, EnsuredEnd(t.groups, start, st.fnl[k].end), zeroed, alias, count);
  }

  lemma RereadMeans(count: Count)
    requires Canonical(count)
    ensures Plus(ZERO, CountOf(CountText(count))) == Some(count)
  {
    hide Canonical, Plus;
    RereadIff(count);
  }

  lemma GroupOfAliases(start: Line, end: Option<Line>, aliases: Aliases)
    requires aliases != map[]
    ensures GroupOf(start, end, aliases).aliases == aliases && GroupOf(start, end, aliases).end == end
  {}

  lemma InsertAfterEnsure(t: Tables, start: Line, end: Option<Line>, zeroed: Aliases, alias: Name, count: Count)
    requires alias in zeroed && zeroed[alias] == ZERO && Canonical(count)
    ensures var u := With(t, start, end, zeroed, alias);
            InsertIn(u, start, alias, CountOf(CountText(count))) ==
            Some(With(t, start, end, zeroed[alias := count], alias))
  {
    hide Canonical, Plus, CountOf, GroupOf;
    RereadMeans(count);
    var u := With(t, start, end, zeroed, alias);
    GroupOfAliases(start, end, zeroed);
    assert u.groups[start].aliases == zeroed;
    assert Added(zeroed, alias, CountOf(CountText(count))) == zeroed[alias := count];
    var v := GroupOf(start, end, zeroed[alias := count]);
    assert u.groups[start := v] == t.groups[start := v];
    assert u.index[alias := start] == t.index[alias := start];
  }

  /** The aliases among the first `m` names. */
  function Part(g: Group, names: seq<Name>, m: nat): Aliases
    requires m <= |names| && NamesOf(names, g)
  {
    map a | a in names[..m] :: g.aliases[a]
  }

  function Homes(names: seq<Name>, start: Line): Index {
    map a | a in names :: start
  }

  /** The tables once the first `m` names of a new group have been read. */
  ghost function PartTables(t: Tables, g: Group, names: seq<Name>, m: nat): Tables
    requires m <= |names| && NamesOf(names, g)
  {
    if m == 0 then t
    else
      assert names[m - 1] in Part(g, names, m);
      Tables(t.groups[g.start := GroupOf(g.start, g.end, Part(g, names, m))],
             t.index + Homes(names[..m], g.start))
  }

  lemma PartNext(g: Group, names: seq<Name>, m: nat)
    requires m < |names| && NamesOf(names, g)
    ensures Part(g, names, m + 1) == Part(g, names, m)[names[m] := g.aliases[names[m]]]
    ensures names[m] in Part(g, names, m + 1) && Part(g, names, m + 1) != map[]
    ensures m == 0 ==> Part(g, names, m) == map[]
  {
    assert names[..m + 1] == names[..m] + [names[m]];
  }

  lemma HomesNext(names: seq<Name>, m: nat, start: Line)
    requires m < |names|
    ensures Homes(names[..m + 1], start) == Homes(names[..m], start)[names[m] := start]
    ensures m == 0 ==> Homes(names[..m], start) == map[]
  {
    assert names[..m + 1] == names[..m] + [names[m]];
  }

  /** A group none of whose names or lines is known yet. */
  ghost predicate NewTo(t: Tables, g: Group) {
    g.start !in t.groups && forall a :: a in g.aliases ==> a !in t.index
  }

  lemma PartStep(t: Tables, g: Group, names: seq<Name>, m: nat)
    requires m < |names| && NamesOf(names, g) && NewTo(t, g)
    ensures var u := PartTables(t, g, names, m);
            var aliases := AliasesAt(u.groups, g.start)[names[m] := g.aliases[names[m]]];
            With(u, g.start, EnsuredEnd(u.groups, g.start, g.end), aliases, names[m]) ==
            PartTables(t, g, names, m + 1)
  {
    hide GroupOf, Part, Homes;
    var u := PartTables(t, g, names, m);
    PartNext(g, names, m);
    HomesNext(names, m, g.start);
    if m > 0 {
      PartNext(g, names, m - 1);
      GroupOfAliases(g.start, g.end, Part(g, names, m));
    }
    assert AliasesAt(u.groups, g.start) == Part(g, names, m);
    assert EnsuredEnd(u.groups, g.start, g.end) == g.end;
    var next := GroupOf(g.start, g.end, Part(g, names, m + 1));
    assert u.groups[g.start := next] == t.groups[g.start := next];
    assert u.index[names[m] := g.start] == t.index + Homes(names[..m + 1], g.start);
  }

  /** Which names are indexed part way through a group. */
  lemma PartIndexed(t: Tables, g: Group, names: seq<Name>, m: nat)
    requires m <= |names| && NamesOf(names, g) && NewTo(t, g)
    ensures forall a :: a in g.aliases ==> (a in PartTables(t, g, names, m).index <==> a in names[..m])
    ensures forall a :: a in g.aliases && a in names[..m] ==> PartTables(t, g, names, m).index[a] == g.start
  {
    hide GroupOf;
  }

  /** After the `FNL` line and the first `m` `FNA` lines of a new group. */
  lemma {:induction false} AliasLinesRead(st: Reading, k: nat, g: Group, names: seq<Name>, m: nat, rules: Rules)
    requires st.live && k < INDEX_LIMIT && k in st.fnl && st.fnl[k] == FnlFields(k, g.start, g.end)
    requires m <= |names| && NamesOf(names, g) && NewTo(st.tables, g) && Distinct(names) && Writable(g)
    requires Sound(st)
    ensures ReadLines(st, AliasLines(k, g, names, m), rules) == st.(tables := PartTables(st.tables, g, names, m))
    ensures Sound(ReadLines(st, AliasLines(k, g, names, m), rules))
  {
    hide LineStep, Coherent, FnaText, PartTables, Carries, NewTo, With, AllWritable, FnlSound, ReadLines, IsLine,
         EnsuredEnd;
    assert forall i :: 0 <= i < |names| ==> names[i] in g.aliases;
    if m == 0 {
      NoPart(st.tables, g, names);
      ReadNone(st, rules);
    } else {
      AliasLinesRead(st, k, g, names, m - 1, rules);
      var part := st.(tables := PartTables(st.tables, g, names, m - 1));
      var alias := names[m - 1];
      var count := g.aliases[alias];
      PartIndexed(st.tables, g, names, m - 1);
      assert alias !in names[..m - 1];
      FnaIsLine(k, count, alias);
      FnaFresh(part, k, alias, count, rules);
      PartStep(st.tables, g, names, m - 1);
      ReadAppend(st, AliasLines(k, g, names, m - 1), [FnaText(k, count, alias)], rules);
      ReadOne(part, FnaText(k, count, alias), rules);
      LineStepSound(part, FnaText(k, count, alias), rules);
    }
  }

  lemma ReadNone(st: Reading, rules: Rules)
    ensures ReadLines(st, [], rules) == st
  {}

  lemma NoPart(t: Tables, g: Group, names: seq<Name>)
    requires NamesOf(names, g)
    ensures PartTables(t, g, names, 0) == t
  {}

  lemma PartWhole(t: Tables, g: Group, names: seq<Name>)
    requires NamesOf(names, g) && GroupValid(g) && NewTo(t, g) && forall a :: a in names <==> a in g.aliases
    ensures PartTables(t, g, names, |names|).groups == t.groups[g.start := g]
  {
    hide GroupValid, GroupOf;
    assert names[..|names|] == names;
    assert Part(g, names, |names|) == g.aliases;
    ValidGroupIs(g);
    assert g.aliases.Keys != {};
    var a :| a in g.aliases;
    assert a in names;
  }

  /** The first `n` groups of the order have been read, without a diagnostic. */
  ghost predicate ReadTo(groups: Groups, order: seq<Line>, n: nat, st: Reading) {
    && n <= |order| && st.clean && st.live && Sound(st)
    && (forall s :: s in st.tables.groups <==> s in order[..n])
    && (forall s :: s in st.tables.groups ==> s in groups && st.tables.groups[s] == groups[s])
    && (forall i :: i in st.fnl ==> i < n)
  }

  /** A group that is still to come shares neither its start nor an alias with those read. */
  lemma StillNew(groups: Groups, gi: Index, order: seq<Line>, n: nat, st: Reading)
    requires Coherent(groups, gi) && ReadTo(groups, order, n, st)
    requires n < |order| && order[n] in groups && Distinct(order)
    ensures groups[order[n]].start == order[n] && GroupValid(groups[order[n]]) && NewTo(st.tables, groups[order[n]])
  {
    hide Coherent, AllWritable, FnlSound, GroupValid;
    var s, t := order[n], st.tables;
    AliasHome(groups, gi, s, groups[s].representative);
    var earlier := order[..n];
    assert forall i :: 0 <= i < |earlier| ==> earlier[i] != s;
    forall a | a in groups[s].aliases ensures a !in t.index {
      AliasHome(groups, gi, s, a);
      if a in t.index {
        IndexedHome(t.groups, t.index, a);
        AliasHome(groups, gi, t.index[a], a);
      }
    }
  }

  lemma FnlLineRead(st: Reading, k: nat, g: Group, rules: Rules)
    requires st.live && Writable(g) && k < INDEX_LIMIT && k !in st.fnl
    ensures LineStep(st, FnlText(k, g), rules) == st.(fnl := st.fnl[k := FnlFields(k, g.start, g.end)])
  {
    hide Classify, ParseFnl, FnlText, FnlPayload, Carries;
    FnlIsLine(k, g);
    FnlReads(k, g);
  }

  lemma GroupRead(st: Reading, k: nat, g: Group, names: seq<Name>, rules: Rules)
    requires st.live && Sound(st) && Writable(g) && GroupValid(g) && NewTo(st.tables, g)
    requires k < INDEX_LIMIT && k !in st.fnl && InOrder(names, g) && NamesOf(names, g)
    ensures var r := ReadLines(st, GroupLines(k, g, names), rules);
            && Sound(r) && r.clean == st.clean && r.live
            && r.tables.groups == st.tables.groups[g.start := g] && r.fnl.Keys == st.fnl.Keys + {k}
  {
    hide LineStep, Sound, FnlText, Writable, GroupValid, NewTo, PartTables, SortedBy, AliasLines;
    var line := FnlText(k, g);
    FnlIsLine(k, g);
    FnlLineRead(st, k, g, rules);
    LineStepSound(st, line, rules);
    var opened' := LineStep(st, line, rules);
    ReadOne(st, line, rules);
    ReadAppend(st, [line], AliasLines(k, g, names, |names|), rules);
    AliasLinesRead(opened', k, g, names, |names|, rules);
    PartWhole(st.tables, g, names);
  }

  lemma ReadToNext(groups: Groups, order: seq<Line>, n: nat, st: Reading, r: Reading)
    requires ReadTo(groups, order, n, st) && n < |order| && order[n] in groups
    requires Sound(r) && r.clean && r.live && r.fnl.Keys == st.fnl.Keys + {n}
    requires r.tables.groups == st.tables.groups[order[n] := groups[order[n]]]
    ensures ReadTo(groups, order, n + 1, r)
  {
    hide Sound;
    assert order[..n + 1] == order[..n] + [order[n]];
    forall i | i in r.fnl ensures i < n + 1 {
      assert i in r.fnl.Keys;
    }
  }

  ghost predicate WellListed(groups: Groups, order: seq<Line>, listing: Listing) {
    && Listed(groups, order, listing)
    && forall k :: 0 <= k < |order| ==> InOrder(listing[order[k]], groups[order[k]])
  }

  /** The lines of writable groups are read into exactly those groups. */
  lemma {:induction false} TableLinesRead(groups: Groups, gi: Index, order: seq<Line>, listing: Listing, n: nat,
                                          rules: Rules)
    requires Coherent(groups, gi) && Distinct(order) && |order| < INDEX_LIMIT && n <= |order|
    requires WellListed(groups, order, listing) && AllWritable(groups)
    ensures ReadTo(groups, order, n, ReadLines(FRESH_READING, TableLines(groups, order, listing, n), rules))
  {
    hide *;
    ListedToo(groups, order, listing);
    if n == 0 {
      FreshSound();
      NothingRead(groups, order);
      NoTableLines(groups, order, listing, rules);
    } else {
      TableLinesRead(groups, gi, order, listing, n - 1, rules);
      var st := ReadLines(FRESH_READING, TableLines(groups, order, listing, n - 1), rules);
      NextGroupRead(groups, gi, order, listing, n - 1, st, rules);
      TableLinesNext(groups, order, listing, n - 1);
      ReadAppend(FRESH_READING, TableLines(groups, order, listing, n - 1),
                 GroupLines(n - 1, groups[order[n - 1]], listing[order[n - 1]]), rules);
    }
  }

  lemma NoTableLines(groups: Groups, order: seq<Line>, listing: Listing, rules: Rules)
    requires Listed(groups, order, listing)
    ensures ReadLines(FRESH_READING, TableLines(groups, order, listing, 0), rules) == FRESH_READING
  {}

  lemma TableLinesNext(groups: Groups, order: seq<Line>, listing: Listing, n: nat)
    requires n < |order| && Listed(groups, order, listing)
    ensures order[n] in groups && order[n] in listing && NamesOf(listing[order[n]], groups[order[n]])
    ensures TableLines(groups, order, listing, n + 1) ==
            TableLines(groups, order, listing, n) + GroupLines(n, groups[order[n]], listing[order[n]])
  {
    hide NamesOf, GroupLines;
  }

  lemma NextGroupRead(groups: Groups, gi: Index, order: seq<Line>, listing: Listing, n: nat, st: Reading, rules: Rules)
    requires Coherent(groups, gi) && Distinct(order) && |order| < INDEX_LIMIT && n < |order|
    requires WellListed(groups, order, listing) && AllWritable(groups) && ReadTo(groups, order, n, st)
    ensures order[n] in groups && order[n] in listing && NamesOf(listing[order[n]], groups[order[n]])
    ensures ReadTo(groups, order, n + 1, ReadLines(st, GroupLines(n, groups[order[n]], listing[order[n]]), rules))
  {
    hide Coherent, Distinct, InOrder, Sound, Writable, NamesOf, NewTo, GroupValid, ReadTo, GroupLines, ReadLines;
    var s := order[n];
    assert NamesOf(listing[s], groups[s]);
    StillNew(groups, gi, order, n, st);
    ReadToMeans(groups, order, n, st);
    GroupRead(st, n, groups[s], listing[s], rules);
    ReadToNext(groups, order, n, st, ReadLines(st, GroupLines(n, groups[s], listing[s]), rules));
  }

  lemma ReadToMeans(groups: Groups, order: seq<Line>, n: nat, st: Reading)
    requires ReadTo(groups, order, n, st)
    ensures st.clean && st.live && Sound(st) && n !in st.fnl
  {
    hide Sound;
  }

  lemma NothingRead(groups: Groups, order: seq<Line>)
    requires Sound(FRESH_READING)
    ensures ReadTo(groups, order, 0, FRESH_READING)
  {
    hide Sound;
  }

  // ----- From bytes -----

  ghost predicate AllLineFree(lines: seq<string>) {
    forall i :: 0 <= i < |lines| ==> LineFree(lines[i])
  }

  /** Lines without line endings come back from their bytes. */
  lemma LinesComeBack(lines: seq<string>)
    requires AllLineFree(lines)
    ensures Contents(LineSplitter.AllLines(Frame(lines))) == lines
  {
    hide LineSplitter.AllLines, LineSplitter.Joined;
    assert LineSplitter.WellSplit(Fed(lines));
    FrameIsJoined(lines);
    LineSplitter.SplitInvertsJoin(Fed(lines));
  }

  lemma {:induction false} AliasLinesText(k: nat, g: Group, names: seq<Name>, n: nat)
    requires n <= |names| && NamesOf(names, g) && Writable(g)
    ensures AllLineFree(AliasLines(k, g, names, n))
  {
    hide FnaText, Carries, LineFree;
    if n > 0 {
      AliasLinesText(k, g, names, n - 1);
      FnaIsLine(k, g.aliases[names[n - 1]], names[n - 1]);
      LineIsText(FnaText(k, g.aliases[names[n - 1]], names[n - 1]));
    }
  }

  lemma LineIsText(line: string)
    requires IsLine(line)
    ensures LineFree(line)
  {}

  lemma {:induction false} TableLinesText(groups: Groups, order: seq<Line>, listing: Listing, n: nat)
    requires n <= |order| && Listed(groups, order, listing) && AllWritable(groups)
    ensures AllLineFree(TableLines(groups, order, listing, n))
  {
    hide FnlText, Writable, LineFree, AliasLines, NamesOf;
    if n > 0 {
      TableLinesText(groups, order, listing, n - 1);
      var g, names := groups[order[n - 1]], listing[order[n - 1]];
      assert NamesOf(names, g);
      FnlIsLine(n - 1, g);
      LineIsText(FnlText(n - 1, g));
      AliasLinesText(n - 1, g, names, |names|);
    }
  }

  lemma SummaryRead(st: Reading, groups: Groups, rules: Rules)
    ensures AllLineFree(SummaryLines(groups)) && (st.live ==> ReadLines(st, SummaryLines(groups), rules) == st)
  {
    hide LineStep, IsHit, Print, IsLine;
    var lines := SummaryLines(groups);
    SummaryLine("FNF:", Print(|groups|), st, rules);
    SummaryLine("FNH:", Print(Hits(groups)), st, rules);
    assert lines == [lines[0]] + [lines[1]];
    if st.live {
      ReadAppend(st, [lines[0]], [lines[1]], rules);
      ReadOne(st, lines[0], rules);
      ReadOne(st, lines[1], rules);
    }
  }

  lemma SummaryLine(tag: string, digits: string, st: Reading, rules: Rules)
    requires tag == "FNF:" || tag == "FNH:"
    requires digits != [] && AllDigits(digits)
    ensures IsLine(tag + digits) && LineFree(tag + digits)
    ensures st.live ==> LineStep(st, tag + digits, rules) == st
  {
    hide FnlStep, FnaStep, FnStep, FndaStep, IsLine;
    DigitsAreText(digits);
    GluedLine(tag, digits);
    LineIsText(tag + digits);
    SummaryClass(tag + digits);
  }

  lemma SummaryClass(line: string)
    requires "FNF:" <= line || "FNH:" <= line
    ensures Classify(line) == Ignored
  {
    assert line[0] == 'F' && line[1] == 'N' && (line[2] == 'F' || line[2] == 'H');
    assert line[..3] == "FNF" || line[..3] == "FNH";
  }

  // ----- The theorem -----

  /** The bytes written for a coherent table are read back into the same table exactly when every
      group is writable: lines are numbers, aliases are nonempty, hold no line ending and do not
      end in white space, and counts are canonical. Then no diagnostic arises either. */
  lemma RoundTripIff(groups: Groups, gi: Index, order: seq<Line>, listing: Listing, rules: Rules)
    requires Coherent(groups, gi) && Distinct(order) && |order| < INDEX_LIMIT
    requires (forall s :: s in order <==> s in groups) && WellListed(groups, order, listing)
    ensures var r := ReadBytes(Frame(AllTableLines(groups, order, listing)), rules);
            && (r.tables.groups == groups <==> AllWritable(groups))
            && (AllWritable(groups) ==> r.clean && r.live)
  {
    hide Coherent, Distinct, ReadBytes, AllWritable, WellListed, Frame, AllTableLines;
    ListedToo(groups, order, listing);
    if AllWritable(groups) {
      WrittenIsRead(groups, gi, order, listing, rules);
    }
    ReadIsWritable(Frame(AllTableLines(groups, order, listing)), rules);
  }

  lemma ListedToo(groups: Groups, order: seq<Line>, listing: Listing)
    requires WellListed(groups, order, listing)
    ensures Listed(groups, order, listing)
  {}

  lemma WrittenIsRead(groups: Groups, gi: Index, order: seq<Line>, listing: Listing, rules: Rules)
    requires Coherent(groups, gi) && Distinct(order) && |order| < INDEX_LIMIT
    requires (forall s :: s in order <==> s in groups) && WellListed(groups, order, listing) && AllWritable(groups)
    ensures var r := ReadBytes(Frame(AllTableLines(groups, order, listing)), rules);
            r.tables.groups == groups && r.clean && r.live
  {
    hide Coherent, Distinct, AllWritable, InOrder, Frame, Sound, LineSplitter.AllLines, TableLines, SummaryLines,
         ReadLines;
    var lines := TableLines(groups, order, listing, |order|);
    TableLinesText(groups, order, listing, |order|);
    TableLinesRead(groups, gi, order, listing, |order|, rules);
    var st := ReadLines(FRESH_READING, lines, rules);
    SummaryRead(st, groups, rules);
    ReadAppend(FRESH_READING, lines, SummaryLines(groups), rules);
    BothText(lines, SummaryLines(groups));
    LinesComeBack(lines + SummaryLines(groups));
    assert order[..|order|] == order;
  }

  lemma BothText(a: seq<string>, b: seq<string>)
    requires AllLineFree(a) && AllLineFree(b)
    ensures AllLineFree(a + b)
  {
    hide LineFree;
  }

  // ----- The listing does not matter -----

  /** Names in byte order are determined by the group. */
  lemma NamesDetermined(a: seq<Name>, b: seq<Name>, g: Group)
    requires InOrder(a, g) && InOrder(b, g)
    ensures a == b
  {
    hide SortedBy, LexLeq, Distinct, IsOrder, Separates;
    LexIsOrder();
    forall x ensures multiset(a)[x] == multiset(b)[x] {
      DistinctCount(a, x);
      DistinctCount(b, x);
    }
    assert multiset(a) == multiset(b);
    SortedUnique(a, b, LexLeq);
  }

  lemma {:induction false} ListingDetermined(groups: Groups, order: seq<Line>, l: Listing, m: Listing, n: nat)
    requires WellListed(groups, order, l) && WellListed(groups, order, m) && n <= |order|
    ensures TableLines(groups, order, l, n) == TableLines(groups, order, m, n)
  {
    hide InOrder, NamesOf, GroupLines;
    if n > 0 {
      ListingDetermined(groups, order, l, m, n - 1);
      NamesDetermined(l[order[n - 1]], m[order[n - 1]], groups[order[n - 1]]);
    }
  }
}
