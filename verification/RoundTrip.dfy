/**
 The snapshot check of a function table: write it, read the bytes back, compare and write again.
 Which of its verdicts a table gets is decided by the table alone.
 */
module RoundTrip {
  import opened Wrappers
  import opened Text
  import opened Decimal
  import opened Ordering
  import opened Counters
  import opened Functions
  import opened FunctionRecords
  import opened FunctionReader
  import opened FunctionText
  import LineSplitter

  // ----- What the reader makes of a written group -----

  predicate IsField(s: string) {
    LineFree(s) && ',' !in s
  }

  /** Nothing in the group can be taken for a line ending, nor its numbers for several fields. */
  predicate Plain(g: Group) {
    && IsField(g.start) && (g.end.Some? ==> IsField(g.end.value))
    && forall a :: a in g.aliases ==> LineFree(a) && IsField(CountText(g.aliases[a]))
  }

  predicate AllPlain(groups: Groups) {
    forall s :: s in groups ==> Plain(groups[s])
  }

  /** The lines of a group once the end of its `FNL` line has been trimmed. */
  function AsRead(g: Group): Group {
    if g.end.None? then g.(start := Trimmed(g.start))
    else g.(end := Some(Trimmed(g.end.value)))
  }

  /** An alias is left after trimming, and its count can be added to zero. */
  predicate AliasReads(alias: Name, count: Count) {
    Trimmed(alias) != [] && Reread(CountText(count)).Some?
  }

  /** The two aliases read the same, but under different lines. */
  predicate Clash(groups: Groups, s: Line, a: Name, t: Line, b: Name)
    requires s in groups && t in groups
  {
    Trimmed(a) == Trimmed(b) && AsRead(groups[s]).start != AsRead(groups[t]).start
  }

  /** What a table must be like for its records to be read without a diagnostic. */
  ghost predicate Acceptable(groups: Groups) {
    && (forall s :: s in groups ==> NumericLines(AsRead(groups[s])))
    && (forall s, a :: s in groups && a in groups[s].aliases ==> AliasReads(a, groups[s].aliases[a]))
    && (forall s, a, t, b :: s in groups && a in groups[s].aliases && t in groups && b in groups[t].aliases ==>
          !Clash(groups, s, a, t, b))
  }

  // ----- Trimmed lines -----

  lemma {:induction false} TrimmedTail(front: string, rest: string)
    requires front != [] && !IsSpace(front[|front| - 1])
    ensures Trimmed(front + rest) == front + Trimmed(rest)
  {
    var whole := front + rest;
    if rest == [] {
      assert whole == front && front + [] == front;
    } else if IsSpace(rest[|rest| - 1]) {
      assert whole[..|whole| - 1] == front + rest[..|rest| - 1];
      TrimmedTail(front, rest[..|rest| - 1]);
    }
  }

  lemma TrimmedField(s: string)
    requires IsField(s)
    ensures IsField(Trimmed(s))
  {
    hide Trimmed;
    var t := Trimmed(s);
    assert forall i :: 0 <= i < |t| ==> t[i] == s[i];
  }

  lemma FnlTrimmed(k: nat, g: Group)
    ensures Trimmed(FnlText(k, g)) == FnlText(k, AsRead(g))
  {
    hide Trimmed, Print;
    var front := "FNL:" + Print(k) + [','];
    if g.end.Some? {
      var more := front + g.start + [','];
      assert FnlText(k, g) == more + g.end.value;
      TrimmedTail(more, g.end.value);
      assert FnlText(k, AsRead(g)) == more + Trimmed(g.end.value);
    } else {
      assert FnlText(k, g) == front + g.start;
      TrimmedTail(front, g.start);
      assert FnlText(k, AsRead(g)) == front + Trimmed(g.start);
    }
  }

  lemma FnaTrimmed(k: nat, count: Count, alias: Name)
    ensures Trimmed(FnaText(k, count, alias)) == FnaText(k, count, Trimmed(alias))
  {
    hide Trimmed, Print, CountText;
    var front := "FNA:" + Print(k) + [','] + CountText(count) + [','];
    assert FnaText(k, count, alias) == front + alias;
    TrimmedTail(front, alias);
    assert FnaText(k, count, Trimmed(alias)) == front + Trimmed(alias);
  }

  // ----- Diagnostics stay -----

  lemma StaysUnclean(st: Reading, line: string, rules: Rules)
    requires !st.clean
    ensures !LineStep(st, line, rules).clean
  {
    hide Classify, ParseFnl, ParseFna, ParseFn, ParseFnda, EnsureIn, InsertIn, NotPositive;
  }

  lemma {:induction false} AllStayUnclean(st: Reading, lines: seq<string>, rules: Rules)
    requires !st.clean
    ensures !ReadLines(st, lines, rules).clean
  {
    hide LineStep, Trimmed;
    if lines != [] {
      AllStayUnclean(st, lines[..|lines| - 1], rules);
      StaysUnclean(ReadLines(st, lines[..|lines| - 1], rules), Trimmed(lines[|lines| - 1]), rules);
    }
  }

  // ----- Reading along -----

  /** An alias and the key of its group. */
  type Pair = (Line, Name)

  predicate InTable(groups: Groups, seen: seq<Line>, done: seq<Pair>) {
    && (forall s :: s in seen ==> s in groups)
    && (forall p :: p in done ==> p.0 in groups && p.1 in groups[p.0].aliases)
  }

  predicate NoClash(groups: Groups, done: seq<Pair>, s: Line, a: Name)
    requires s in groups && InTable(groups, [], done)
  {
    forall p :: p in done ==> !Clash(groups, p.0, p.1, s, a)
  }

  /** Nothing wrong with the groups and aliases read so far. */
  predicate Fine(groups: Groups, seen: seq<Line>, done: seq<Pair>)
    requires InTable(groups, seen, done)
  {
    && (forall s :: s in seen ==> NumericLines(AsRead(groups[s])))
    && (forall p :: p in done ==> AliasReads(p.1, groups[p.0].aliases[p.1]))
    && (forall p, q :: p in done && q in done ==> !Clash(groups, p.0, p.1, q.0, q.1))
  }

  /** The index holds the trimmed aliases read so far. */
  ghost predicate IndexFollows(groups: Groups, done: seq<Pair>, index: Index)
    requires InTable(groups, [], done)
  {
    && (forall p :: p in done ==>
          Trimmed(p.1) in index && index[Trimmed(p.1)] == AsRead(groups[p.0]).start)
    && (forall x :: x in index ==> exists p :: p in done && Trimmed(p.1) == x)
  }

  /** The reading is clean exactly while everything read so far is fine. */
  ghost predicate Follows(groups: Groups, seen: seq<Line>, done: seq<Pair>, st: Reading) {
    && InTable(groups, seen, done) && Sound(st)
    && (st.clean <==> Fine(groups, seen, done))
    && (st.clean ==> st.live && IndexFollows(groups, done, st.tables.index) && forall i :: i in st.fnl ==> i < |seen|)
  }

  lemma FollowsNothing(groups: Groups)
    ensures Follows(groups, [], [], FRESH_READING)
  {
    FreshSound();
  }

  // ----- One `FNL` line -----

  lemma FnlStepIff(st: Reading, k: nat, g: Group, rules: Rules)
    requires st.live && k < INDEX_LIMIT && k !in st.fnl && Plain(g)
    ensures LineStep(st, FnlText(k, AsRead(g)), rules) ==
            if NumericLines(AsRead(g)) then st.(fnl := st.fnl[k := FnlFields(k, AsRead(g).start, AsRead(g).end)])
            else Diagnose(st)
  {
    hide Classify, ParseFnl, FnlPayload, Trimmed, NumericLines;
    var read := AsRead(g);
    if g.end.Some? {
      TrimmedField(g.end.value);
    } else {
      TrimmedField(g.start);
    }
    FnlParses(k, read);
    Retagged("FNL:", FnlPayload(k, read));
    FnlClass(FnlText(k, read));
  }

  lemma FnlTextFree(k: nat, g: Group)
    requires Plain(g)
    ensures LineFree(FnlText(k, g))
  {
    hide Print;
    DigitsAreText(Print(k));
  }

  lemma FnlFollows(groups: Groups, seen: seq<Line>, done: seq<Pair>, st: Reading, s: Line, rules: Rules)
    requires Follows(groups, seen, done, st) && s in groups && Plain(groups[s]) && |seen| < INDEX_LIMIT
    ensures var r := LineStep(st, Trimmed(FnlText(|seen|, groups[s])), rules);
            && Follows(groups, seen + [s], done, r)
            && (r.clean ==> var read := AsRead(groups[s]);
                  |seen| in r.fnl && r.fnl[|seen|] == FnlFields(|seen|, read.start, read.end))
  {
    hide Sound, LineStep, FnlText, NumericLines, AsRead, Plain, IndexFollows, Clash, AliasReads, Trimmed;
    var k, g := |seen|, groups[s];
    FnlTextFree(k, g);
    TrimmedIsLine(FnlText(k, g));
    LineStepSound(st, Trimmed(FnlText(k, g)), rules);
    FnlTrimmed(k, g);
    if st.clean {
      FnlStepIff(st, k, g, rules);
    } else {
      StaysUnclean(st, FnlText(k, AsRead(g)), rules);
    }
  }

  // ----- One `FNA` line -----

  /** The step on an alias that is left after trimming. */
  lemma FnaStepIff(st: Reading, payload: string, k: nat, count: Count, alias: Name, rules: Rules)
    requires Sound(st) && st.clean && k in st.fnl && Carries(alias, ZERO)
    requires ParseFna(payload) == Some(FnaFields(k, CountText(count), alias))
    ensures var r, start := FnaStep(st, payload, rules), st.fnl[k].start;
            && (r.clean <==> !Elsewhere(st.tables, start, alias) && Reread(CountText(count)).Some?)
            && (r.clean ==> r.live == st.live && r.fnl == st.fnl && r.tables.index == st.tables.index[alias := start])
  {
    hide ParseFna, Coherent, Carries, CountOf, Plus, Canonical, GroupOf, CountText, IsDigits;
    var fnl := st.fnl[k];
    var t := EnsureIn(st.tables, fnl.start, alias, fnl.end);
    if t.Some? {
      EnsureSound(st.tables, fnl.start, alias, fnl.end);
      var c := t.value.groups[fnl.start].aliases[alias];
      CarriedCount(t.value.groups, fnl.start, alias);
      ZeroCanonical();
      PlusAlike(c, ZERO, CountOf(CountText(count)));
    }
  }

  lemma CarriedCount(groups: Groups, s: Line, a: Name)
    requires AllWritable(groups) && s in groups && a in groups[s].aliases
    ensures Canonical(groups[s].aliases[a])
  {
    hide Canonical;
    assert Writable(groups[s]);
    assert Carries(a, groups[s].aliases[a]);
  }

  lemma FnaTextFree(k: nat, count: Count, alias: Name)
    requires LineFree(alias) && LineFree(CountText(count))
    ensures LineFree(FnaText(k, count, alias))
  {
    hide Print, CountText;
    DigitsAreText(Print(k));
  }

  lemma NameCarried(alias: Name)
    requires LineFree(alias) && alias != [] && !IsSpace(alias[|alias| - 1])
    ensures Carries(alias, ZERO)
  {
    ZeroCanonical();
  }

  lemma TrimmedName(alias: Name)
    requires LineFree(alias) && Trimmed(alias) != []
    ensures Carries(Trimmed(alias), ZERO)
  {
    hide Trimmed;
    TrimmedIsLine(alias);
    NameCarried(Trimmed(alias));
  }

  lemma FnaLineIff(st: Reading, k: nat, count: Count, alias: Name, rules: Rules)
    requires Sound(st) && st.clean && st.live && k < INDEX_LIMIT && k in st.fnl
    requires LineFree(alias) && IsField(CountText(count))
    ensures var name, start := Trimmed(alias), st.fnl[k].start;
            var r := LineStep(st, FnaText(k, count, name), rules);
            && (r.clean <==> AliasReads(alias, count) && !Elsewhere(st.tables, start, name))
            && (r.clean ==> r.live && r.fnl == st.fnl && r.tables.index == st.tables.index[name := start])
  {
    hide Trimmed, Classify, ParseFna, FnaPayload, CountText, Sound, FnaStep, Reread, Carries;
    var name := Trimmed(alias);
    FnaParses(k, count, name);
    Retagged("FNA:", FnaPayload(k, count, name));
    FnaClass(FnaText(k, count, name));
    if name != [] {
      TrimmedName(alias);
      FnaStepIff(st, FnaPayload(k, count, name), k, count, name, rules);
    } else {
      NoName(st, FnaPayload(k, count, name), rules);
    }
  }

  lemma NoName(st: Reading, payload: string, rules: Rules)
    requires ParseFna(payload).None?
    ensures FnaStep(st, payload, rules) == Diagnose(st)
  {
    hide ParseFna;
  }

  /** The index tells whether an alias clashes with one that was read. */
  lemma ElsewhereIff(groups: Groups, done: seq<Pair>, index: Index, s: Line, a: Name)
    requires InTable(groups, [], done) && IndexFollows(groups, done, index) && s in groups
    ensures var name, start := Trimmed(a), AsRead(groups[s]).start;
            (name in index && index[name] != start) <==> !NoClash(groups, done, s, a)
  {
    hide Trimmed, AsRead;
  }

  lemma IndexGrows(groups: Groups, done: seq<Pair>, index: Index, s: Line, a: Name)
    requires InTable(groups, [], done) && IndexFollows(groups, done, index) && s in groups && a in groups[s].aliases
    requires NoClash(groups, done, s, a)
    ensures IndexFollows(groups, done + [(s, a)], index[Trimmed(a) := AsRead(groups[s]).start])
  {
    hide Trimmed, AsRead;
    var more := done + [(s, a)];
    assert more[|done|] == (s, a);
    forall p ensures p in more <==> p in done || p == (s, a) {}
    var next := index[Trimmed(a) := AsRead(groups[s]).start];
    forall x | x in next ensures exists p :: p in more && Trimmed(p.1) == x {
      if x in index {
        var p :| p in done && Trimmed(p.1) == x;
        assert p in more;
      } else {
        assert (s, a) in more && Trimmed((s, a).1) == x;
      }
    }
  }

  lemma FineGrows(groups: Groups, seen: seq<Line>, done: seq<Pair>, s: Line, a: Name)
    requires InTable(groups, seen, done) && s in groups && a in groups[s].aliases
    ensures InTable(groups, seen, done + [(s, a)])
    ensures Fine(groups, seen, done + [(s, a)]) <==>
              Fine(groups, seen, done) && AliasReads(a, groups[s].aliases[a]) && NoClash(groups, done, s, a)
  {
    hide AliasReads, NumericLines, AsRead, Trimmed;
    var more := done + [(s, a)];
    assert more[|done|] == (s, a);
    forall p ensures p in more <==> p in done || p == (s, a) {}
  }

  /** What the reading knows of the group whose aliases are coming. */
  ghost predicate Open(st: Reading, k: nat, g: Group) {
    st.clean ==> k in st.fnl && st.fnl[k] == FnlFields(k, AsRead(g).start, AsRead(g).end)
  }

  lemma FnaFollows(groups: Groups, seen: seq<Line>, done: seq<Pair>, st: Reading, k: nat, s: Line, a: Name,
                   rules: Rules)
    requires Follows(groups, seen, done, st) && k < INDEX_LIMIT
    requires s in groups && a in groups[s].aliases && Plain(groups[s]) && Open(st, k, groups[s])
    ensures var r := LineStep(st, Trimmed(FnaText(k, groups[s].aliases[a], a)), rules);
            Follows(groups, seen, done + [(s, a)], r) && Open(r, k, groups[s])
  {
    hide Sound, LineStep, FnaText, AsRead, IndexFollows, NoClash, AliasReads, Fine, Trimmed, CountText, LineFree,
         InTable;
    var count := groups[s].aliases[a];
    FnaTextFree(k, count, a);
    TrimmedIsLine(FnaText(k, count, a));
    LineStepSound(st, Trimmed(FnaText(k, count, a)), rules);
    FnaTrimmed(k, count, a);
    FineGrows(groups, seen, done, s, a);
    OnlyPairs(groups, seen, done);
    if st.clean {
      FnaLineIff(st, k, count, a, rules);
      ElsewhereIff(groups, done, st.tables.index, s, a);
      if NoClash(groups, done, s, a) {
        IndexGrows(groups, done, st.tables.index, s, a);
        OnlyPairs(groups, seen, done + [(s, a)]);
      }
    } else {
      StaysUnclean(st, FnaText(k, count, Trimmed(a)), rules);
    }
  }

  lemma OnlyPairs(groups: Groups, seen: seq<Line>, done: seq<Pair>)
    requires InTable(groups, seen, done)
    ensures InTable(groups, [], done)
  {}

  // ----- All lines -----

  function Pairs(s: Line, names: seq<Name>, n: nat): seq<Pair>
    requires n <= |names|
  {
    if n == 0 then [] else Pairs(s, names, n - 1) + [(s, names[n - 1])]
  }

  lemma {:induction false} PairsAre(s: Line, names: seq<Name>, n: nat, p: Pair)
    requires n <= |names|
    ensures p in Pairs(s, names, n) <==> p.0 == s && p.1 in names[..n]
  {
    if n > 0 {
      PairsAre(s, names, n - 1, p);
      assert names[..n] == names[..n - 1] + [names[n - 1]];
    }
  }

  lemma ReadNext(st: Reading, lines: seq<string>, line: string, rules: Rules)
    ensures ReadLines(st, lines + [line], rules) ==
            LineStep(ReadLines(st, lines, rules), Trimmed(line), rules)
  {
    hide LineStep, Trimmed;
    assert (lines + [line])[..|lines|] == lines;
  }

  lemma {:induction false} AliasesFollow(groups: Groups, seen: seq<Line>, done: seq<Pair>, st: Reading, k: nat, s: Line,
                                         names: seq<Name>, n: nat, rules: Rules)
    requires Follows(groups, seen, done, st) && k < INDEX_LIMIT && n <= |names|
    requires s in groups && NamesOf(names, groups[s]) && Plain(groups[s]) && Open(st, k, groups[s])
    ensures var r := ReadLines(st, AliasLines(k, groups[s], names, n), rules);
            Follows(groups, seen, done + Pairs(s, names, n), r) && Open(r, k, groups[s])
  {
    hide Follows, Open, LineStep, FnaText, Plain, Trimmed, ReadLines;
    if n == 0 {
      ReadNone(st, rules);
      assert done + [] == done;
    } else {
      var g, a := groups[s], names[n - 1];
      var lines, before := AliasLines(k, g, names, n - 1), done + Pairs(s, names, n - 1);
      AliasesFollow(groups, seen, done, st, k, s, names, n - 1, rules);
      FnaFollows(groups, seen, before, ReadLines(st, lines, rules), k, s, a, rules);
      ReadNext(st, lines, FnaText(k, g.aliases[a], a), rules);
      assert before + [(s, a)] == done + Pairs(s, names, n);
    }
  }

  lemma GroupFollows(groups: Groups, seen: seq<Line>, done: seq<Pair>, st: Reading, s: Line, names: seq<Name>,
                     rules: Rules)
    requires Follows(groups, seen, done, st) && |seen| < INDEX_LIMIT
    requires s in groups && NamesOf(names, groups[s]) && Plain(groups[s])
    ensures Follows(groups, seen + [s], done + Pairs(s, names, |names|),
                    ReadLines(st, GroupLines(|seen|, groups[s], names), rules))
  {
    hide Follows, LineStep, FnlText, Plain, Trimmed, ReadLines, AliasLines, Pairs, NamesOf, AsRead;
    var k, g := |seen|, groups[s];
    var line := FnlText(k, g);
    FnlFollows(groups, seen, done, st, s, rules);
    ReadNext(st, [], line, rules);
    ReadNone(st, rules);
    assert [] + [line] == [line];
    AliasesFollow(groups, seen + [s], done, ReadLines(st, [line], rules), k, s, names, |names|, rules);
    ReadAppend(st, [line], AliasLines(k, g, names, |names|), rules);
  }

  /** The aliases of the first `n` groups of the order. */
  function AllPairs(groups: Groups, order: seq<Line>, listing: Listing, n: nat): seq<Pair>
    requires n <= |order| && Listed(groups, order, listing)
  {
    if n == 0 then []
    else
      var names := listing[order[n - 1]];
      AllPairs(groups, order, listing, n - 1) + Pairs(order[n - 1], names, |names|)
  }

  lemma {:induction false} TableFollows(groups: Groups, order: seq<Line>, listing: Listing, n: nat, rules: Rules)
    requires n <= |order| < INDEX_LIMIT && Listed(groups, order, listing) && AllPlain(groups)
    ensures Follows(groups, order[..n], AllPairs(groups, order, listing, n),
                    ReadLines(FRESH_READING, TableLines(groups, order, listing, n), rules))
  {
    hide Follows, ReadLines, Plain, GroupLines, NamesOf, Pairs;
    if n == 0 {
      FollowsNothing(groups);
      ReadNone(FRESH_READING, rules);
    } else {
      var s := order[n - 1];
      assert NamesOf(listing[s], groups[s]);
      var lines := TableLines(groups, order, listing, n - 1);
      TableFollows(groups, order, listing, n - 1, rules);
      assert |order[..n - 1]| == n - 1 && order[..n] == order[..n - 1] + [s];
      var before := ReadLines(FRESH_READING, lines, rules);
      GroupFollows(groups, order[..n - 1], AllPairs(groups, order, listing, n - 1), before, s, listing[s], rules);
      ReadAppend(FRESH_READING, lines, GroupLines(n - 1, groups[s], listing[s]), rules);
    }
  }

  lemma {:induction false} AllPairsAre(groups: Groups, order: seq<Line>, listing: Listing, n: nat, p: Pair)
    requires n <= |order| && WellListed(groups, order, listing)
    ensures p in AllPairs(groups, order, listing, n) <==>
              p.0 in order[..n] && p.0 in groups && p.1 in groups[p.0].aliases
  {
    hide Distinct, SortedBy, NamesOf;
    if n > 0 {
      AllPairsAre(groups, order, listing, n - 1, p);
      var s := order[n - 1];
      var names := listing[s];
      assert InOrder(names, groups[s]);
      PairsAre(s, names, |names|, p);
      assert names[..|names|] == names;
      assert order[..n] == order[..n - 1] + [s];
    }
  }

  /** Once all groups have been read, fine means acceptable. */
  lemma FineIsAcceptable(groups: Groups, order: seq<Line>, listing: Listing)
    requires WellListed(groups, order, listing) && forall s :: s in order <==> s in groups
    ensures var done := AllPairs(groups, order, listing, |order|);
            InTable(groups, order, done) && (Fine(groups, order, done) <==> Acceptable(groups))
  {
    hide WellListed, AllPairs, NumericLines, AsRead, AliasReads, Clash, Listed;
    ListedToo(groups, order, listing);
    var done := AllPairs(groups, order, listing, |order|);
    assert order[..|order|] == order;
    forall p: Pair ensures p in done <==> p.0 in groups && p.1 in groups[p.0].aliases {
      AllPairsAre(groups, order, listing, |order|, p);
    }
    if Fine(groups, order, done) {
      forall s, a | s in groups && a in groups[s].aliases
        ensures (s, a) in done && AliasReads(a, groups[s].aliases[a])
      {
        assert (s, a).0 == s && (s, a).1 == a;
      }
      forall s, a, t, b | s in groups && a in groups[s].aliases && t in groups && b in groups[t].aliases
        ensures !Clash(groups, s, a, t, b)
      {
        assert (s, a) in done && (t, b) in done;
        assert !Clash(groups, (s, a).0, (s, a).1, (t, b).0, (t, b).1);
      }
    }
  }

  // ----- Lines without line endings -----

  lemma {:induction false} AliasLinesFree(k: nat, g: Group, names: seq<Name>, n: nat)
    requires n <= |names| && NamesOf(names, g) && Plain(g)
    ensures AllLineFree(AliasLines(k, g, names, n))
  {
    hide FnaText, LineFree, CountText;
    if n > 0 {
      AliasLinesFree(k, g, names, n - 1);
      FnaTextFree(k, g.aliases[names[n - 1]], names[n - 1]);
    }
  }

  lemma {:induction false} TableLinesFree(groups: Groups, order: seq<Line>, listing: Listing, n: nat)
    requires n <= |order| && Listed(groups, order, listing) && AllPlain(groups)
    ensures AllLineFree(TableLines(groups, order, listing, n))
  {
    hide FnlText, Plain, LineFree, AliasLines, NamesOf;
    if n > 0 {
      TableLinesFree(groups, order, listing, n - 1);
      var g, names := groups[order[n - 1]], listing[order[n - 1]];
      assert NamesOf(names, g);
      FnlTextFree(n - 1, g);
      AliasLinesFree(n - 1, g, names, |names|);
    }
  }

  // ----- The verdict -----

  /** The written bytes of a plain table are read without a diagnostic exactly when the table is
      acceptable: whatever the order of its groups, and whatever other records would do. */
  lemma CleanIff(groups: Groups, order: seq<Line>, listing: Listing, rules: Rules)
    requires AllPlain(groups) && |order| < INDEX_LIMIT
    requires WellListed(groups, order, listing) && forall s :: s in order <==> s in groups
    ensures ReadBytes(Frame(AllTableLines(groups, order, listing)), rules).clean <==> Acceptable(groups)
  {
    hide Sound, Fine, IndexFollows, InTable, Acceptable, AllPlain, Frame, LineSplitter.AllLines, TableLines,
         SummaryLines, ReadLines, AllPairs, Listed, WellListed, AllLineFree;
    ListedToo(groups, order, listing);
    var lines := TableLines(groups, order, listing, |order|);
    TableLinesFree(groups, order, listing, |order|);
    TableFollows(groups, order, listing, |order|, rules);
    assert order[..|order|] == order;
    FineIsAcceptable(groups, order, listing);
    var st := ReadLines(FRESH_READING, lines, rules);
    SummaryRead(st, groups, rules);
    BothText(lines, SummaryLines(groups));
    LinesComeBack(lines + SummaryLines(groups));
    ReadAppend(FRESH_READING, lines, SummaryLines(groups), rules);
    if !st.clean {
      AllStayUnclean(st, SummaryLines(groups), rules);
    }
  }

  datatype Verdict =
    | Serializable(bytes: string)
    | ParseRejected(bytes: string)
    | SemanticMismatch(bytes: string)
    | FixedPointMismatch(bytes: string)

  /** The bytes are those of the table, its groups in this order. */
  ghost predicate IsWritten(groups: Groups, order: seq<Line>, bytes: string) {
    exists listing :: WellListed(groups, order, listing) && bytes == Frame(AllTableLines(groups, order, listing))
  }

  /** The write, reparse, compare and rewrite check of a snapshot, for a table of functions. It
      accepts exactly the writable tables; a reparse with diagnostics is rejected before anything
      is compared; and the second writing never differs from the first. */
  method ValidateRoundTrip(table: Table, order: seq<Line>, rules: Rules) returns (verdict: Verdict)
    requires table.Valid() && Distinct(order) && |order| < INDEX_LIMIT
    requires forall s :: s in order <==> s in table.byStart
    ensures IsWritten(table.byStart, order, verdict.bytes)
    ensures verdict.Serializable? <==> AllWritable(table.byStart)
    ensures verdict.ParseRejected? <==> !ReadBytes(verdict.bytes, rules).clean
    ensures AllPlain(table.byStart) ==> (verdict.ParseRejected? <==> !Acceptable(table.byStart))
    ensures !verdict.FixedPointMismatch?
  {
    hide Coherent, Distinct, InOrder, AllWritable, Frame, TableLines, SummaryLines, ReadBytes, NamesOf,
         LineSplitter.Concat, AllPlain, Acceptable;
    var groups := table.byStart;
    assert forall k :: 0 <= k < |order| ==> order[k] in order;
    var out, listing := WriteFunctions(groups, order);
    assert WellListed(groups, order, listing);
    OneChunk(out);
    var section := ReadSection([out], rules);
    RoundTripIff(groups, table.byAlias, order, listing, rules);
    if AllPlain(groups) {
      CleanIff(groups, order, listing, rules);
    }
    if !section.clean {
      return ParseRejected(out);
    }
    if section.functions.byStart != groups {
      return SemanticMismatch(out);
    }
    var again, second := WriteFunctions(section.functions.byStart, order);
    ListingDetermined(groups, order, listing, second, |order|);
    if again != out {
      return FixedPointMismatch(out);
    }
    return Serializable(out);
  }

  lemma OneChunk(chunk: string)
    ensures LineSplitter.Concat([chunk]) == chunk
  {
    assert [chunk][..0] == [];
    assert [] + chunk == chunk;
  }

  // ----- One table for each failing verdict -----

  function OneAlias(alias: Name): Groups {
    map["1" := Group("1", None, map[alias := ZERO], alias)]
  }

  lemma OneIsCoherent(alias: Name)
    ensures Coherent(OneAlias(alias), map[alias := "1"])
  {
    assert GroupValid(OneAlias(alias)["1"]);
  }

  /** The one group, its one name, and the order and listing of both. */
  lemma OneIsListed(alias: Name)
    ensures WellListed(OneAlias(alias), ["1"], map["1" := [alias]]) && forall s :: s in ["1"] <==> s in OneAlias(alias)
  {
    assert [alias][0] == alias && InOrder([alias], OneAlias(alias)["1"]);
  }

  lemma OneIsPlain(alias: Name)
    requires LineFree(alias)
    ensures AllPlain(OneAlias(alias))
  {}

  lemma OneIsWritable(alias: Name)
    ensures AllWritable(OneAlias(alias)) ==> Carries(alias, ZERO)
  {
    hide Carries;
    assert alias in OneAlias(alias)["1"].aliases;
  }

  lemma OneIsAcceptable(alias: Name)
    ensures Acceptable(OneAlias(alias)) <==> Trimmed(alias) != []
  {
    hide Canonical, Reread, Trimmed, AsRead;
    ZeroCanonical();
    RereadIff(ZERO);
    var groups := OneAlias(alias);
    assert alias in groups["1"].aliases && groups["1"].aliases[alias] == ZERO;
    OneLine(groups["1"]);
  }

  lemma OneLine(g: Group)
    requires g.start == "1" && g.end == None
    ensures NumericLines(AsRead(g))
  {
    assert !IsSpace("1"[0]);
  }

  /** An empty alias leaves a malformed record: the reparse is rejected. */
  lemma EmptyAliasIsRejected(rules: Rules)
    ensures WellListed(OneAlias(""), ["1"], map["1" := [""]])
    ensures !ReadBytes(Frame(AllTableLines(OneAlias(""), ["1"], map["1" := [""]])), rules).clean
  {
    hide OneAlias, WellListed, ReadBytes, Frame, AllTableLines, AllPlain, Acceptable;
    OneIsListed("");
    OneIsPlain("");
    OneIsAcceptable("");
    CleanIff(OneAlias(""), ["1"], map["1" := [""]], rules);
  }

  /** A space at the end of an alias goes unnoticed: the reparse is clean, and the table another. */
  lemma TrailingSpaceIsLost(rules: Rules)
    ensures WellListed(OneAlias("f "), ["1"], map["1" := ["f "]])
    ensures var r := ReadBytes(Frame(AllTableLines(OneAlias("f "), ["1"], map["1" := ["f "]])), rules);
            r.clean && r.tables.groups != OneAlias("f ")
  {
    hide OneAlias, WellListed, ReadBytes, Frame, AllTableLines, AllPlain, Acceptable, AllWritable, Carries, Coherent;
    OneIsListed("f ");
    OneIsPlain("f ");
    OneIsAcceptable("f ");
    OneIsCoherent("f ");
    OneIsWritable("f ");
    TrimmedSpace();
    CleanIff(OneAlias("f "), ["1"], map["1" := ["f "]], rules);
    RoundTripIff(OneAlias("f "), map["f " := "1"], ["1"], map["1" := ["f "]], rules);
  }

  lemma TrimmedSpace()
    ensures Trimmed("f ") != [] && !Carries("f ", ZERO)
  {
    assert IsSpace("f "[1]) && "f "[..1] == "f";
  }
}
