/** What a single token resolves to, told from the command's own tables: aliases, options, clusters
    and prefixes, for each family and profile. */
module Resolutions {
  import opened Wrappers
  import opened Text
  import opened Sequences
  import opened Ordering
  import opened Resolver
  import opened Abbreviations

  // ----- Case -----

  /** The same letter, or one letter in its two cases. */
  predicate SameLetter(a: char, b: char) {
    || a == b
    || ('A' <= a <= 'Z' && b as int == a as int + 'a' as int - 'A' as int)
    || ('A' <= b <= 'Z' && a as int == b as int + 'a' as int - 'A' as int)
  }

  predicate SameUpToCase(s: string, t: string) {
    |s| == |t| && forall i :: 0 <= i < |s| ==> SameLetter(s[i], t[i])
  }

  lemma FoldingMeans(s: string, t: string)
    ensures Lower(s) == Lower(t) <==> SameUpToCase(s, t)
  {
    if Lower(s) == Lower(t) {
      forall i | 0 <= i < |s| ensures SameLetter(s[i], t[i]) {
        assert Lower(s)[i] == Lower(t)[i];
      }
    }
  }

  // ----- Lookups -----

  /** Item `i` is the last one whose key satisfies `matches`. */
  ghost predicate LastItem(items: Dict, matches: string -> bool, i: int) {
    && 0 <= i < |items| && matches(items[i].0)
    && forall j :: i < j < |items| ==> !matches(items[j].0)
  }

  function Key(key: string): string -> bool {
    k => k == key
  }

  function UpToCase(key: string): string -> bool {
    k => SameUpToCase(k, key)
  }

  lemma {:induction false} GetAfterPut(d: Dict, key: string, value: string, other: string)
    ensures Get(Put(d, key, value), other) == if other == key then Some(value) else Get(d, other)
  {
    if d != [] {
      var p := Put(d, key, value);
      if d[0].0 == key {
        assert p[1..] == d[1..];
      } else {
        GetAfterPut(d[1..], key, value, other);
        assert p[1..] == Put(d[1..], key, value);
      }
    }
  }

  /** A dictionary answers with the last item that has the key. */
  lemma {:induction false} LastWins(items: Dict, key: string)
    ensures Get(FromItems(items), key).None? <==> forall i :: 0 <= i < |items| ==> items[i].0 != key
    ensures forall i :: LastItem(items, Key(key), i) ==> Get(FromItems(items), key) == Some(items[i].1)
  {
    hide Put;
    if items != [] {
      var init, last := items[..|items| - 1], items[|items| - 1];
      LastWins(init, key);
      GetAfterPut(FromItems(init), last.0, last.1, key);
      if last.0 != key {
        forall i | LastItem(items, Key(key), i) ensures LastItem(init, Key(key), i) {
          assert forall j :: i < j < |init| ==> init[j] == items[j];
        }
      }
      forall i | 0 <= i < |init| ensures init[i] == items[i] {}
    }
  }

  /** The alias table answers with the first item that has the key; its keys are distinct. */
  lemma {:induction false} FirstWins(d: Dict, key: string)
    ensures Get(d, key).None? <==> forall i :: 0 <= i < |d| ==> d[i].0 != key
    ensures forall i :: 0 <= i < |d| && d[i].0 == key && (forall j :: 0 <= j < i ==> d[j].0 != key) ==>
              Get(d, key) == Some(d[i].1)
  {
    if d != [] {
      var t := d[1..];
      FirstWins(t, key);
      assert forall i :: 0 <= i < |t| ==> t[i] == d[i + 1];
      forall i | 0 < i < |d| && d[i].0 == key && (forall j :: 0 <= j < i ==> d[j].0 != key)
        ensures Get(d, key) == Some(d[i].1)
      {
        assert t[i - 1] == d[i];
        forall j | 0 <= j < i - 1 ensures t[j].0 != key {
          assert t[j] == d[j + 1];
        }
      }
    }
  }

  lemma {:induction false} FoldedItems(d: Dict)
    ensures var f := Collect(d, FoldItem);
            |f| == |d| && forall i :: 0 <= i < |d| ==> f[i] == (Lower(d[i].0), d[i].1)
  {
    hide Lower;
    if d != [] {
      FoldedItems(d[1..]);
    }
  }

  /** A folded dictionary answers with the last item whose key is the same up to case. */
  lemma FoldedLastWins(items: Dict, key: string)
    ensures var found := Get(FromItems(Collect(items, FoldItem)), Lower(key));
            && (found.None? <==> forall i :: 0 <= i < |items| ==> !SameUpToCase(items[i].0, key))
            && (forall i :: LastItem(items, UpToCase(key), i) ==> found == Some(items[i].1))
  {
    hide Lower, Collect, FromItems, SameUpToCase;
    var f := Collect(items, FoldItem);
    FoldedItems(items);
    LastWins(f, Lower(key));
    forall i | 0 <= i < |items| ensures f[i].0 == Lower(key) <==> SameUpToCase(items[i].0, key) {
      FoldingMeans(items[i].0, key);
    }
    forall i | LastItem(items, UpToCase(key), i) ensures LastItem(f, Key(Lower(key)), i) {
      forall j | i < j < |f| ensures f[j].0 != Lower(key) {
        assert !UpToCase(key)(items[j].0);
      }
    }
  }

  // ----- Aliases -----

  /** No alias is the token, up to case. */
  predicate NoAliasUpToCase(c: Command, token: string) {
    forall i :: 0 <= i < |c.aliases| ==> !SameUpToCase(c.aliases[i].0, token)
  }

  /** The target of the alias that a token is up to case. */
  ghost predicate AliasUpToCase(c: Command, token: string, target: string) {
    exists i :: LastItem(c.aliases, UpToCase(token), i) && c.aliases[i].1 == target
  }

  predicate NoAlias(c: Command, token: string) {
    forall i :: 0 <= i < |c.aliases| ==> c.aliases[i].0 != token
  }

  ghost predicate IsAlias(c: Command, token: string, target: string) {
    exists i :: 0 <= i < |c.aliases| && c.aliases[i] == (token, target)
                && forall j :: 0 <= j < i ==> c.aliases[j].0 != token
  }

  lemma AliasLookups(c: Command, token: string)
    ensures Get(FoldedAliases(c), Lower(token)).None? <==> NoAliasUpToCase(c, token)
    ensures forall target :: AliasUpToCase(c, token, target) ==> Get(FoldedAliases(c), Lower(token)) == Some(target)
    ensures Get(c.aliases, token).None? <==> NoAlias(c, token)
    ensures forall target :: IsAlias(c, token, target) ==> Get(c.aliases, token) == Some(target)
  {
    hide Get, FromItems, Collect, Lower, SameUpToCase;
    FoldedLastWins(c.aliases, token);
    FirstWins(c.aliases, token);
  }

  /** A found alias is one. */
  lemma FoundAlias(c: Command, token: string)
    ensures !NoAliasUpToCase(c, token) ==> exists target :: AliasUpToCase(c, token, target)
    ensures !NoAlias(c, token) ==> exists target :: IsAlias(c, token, target)
  {
    hide SameUpToCase;
    if !NoAliasUpToCase(c, token) {
      var i := LastOf(c.aliases, UpToCase(token));
      assert AliasUpToCase(c, token, c.aliases[i].1);
    }
    if !NoAlias(c, token) {
      var i := FirstOf(c.aliases, token);
      assert c.aliases[i] == (token, c.aliases[i].1);
      assert IsAlias(c, token, c.aliases[i].1);
    }
  }

  lemma {:induction false} LastOf(items: Dict, matches: string -> bool) returns (i: nat)
    requires exists k :: 0 <= k < |items| && matches(items[k].0)
    ensures LastItem(items, matches, i)
  {
    var last := |items| - 1;
    if matches(items[last].0) {
      i := last;
    } else {
      var init := items[..last];
      var k :| 0 <= k < |items| && matches(items[k].0);
      assert init[k] == items[k];
      i := LastOf(init, matches);
      forall j | i < j < |items| ensures !matches(items[j].0) {
        if j < last { assert init[j] == items[j]; }
      }
    }
  }

  lemma {:induction false} FirstOf(items: Dict, key: string) returns (i: nat)
    requires exists k :: 0 <= k < |items| && items[k].0 == key
    ensures i < |items| && items[i].0 == key && forall j :: 0 <= j < i ==> items[j].0 != key
  {
    if items[0].0 == key {
      i := 0;
    } else {
      var t := items[1..];
      var k :| 0 <= k < |items| && items[k].0 == key;
      assert t[k - 1] == items[k];
      var m := FirstOf(t, key);
      i := m + 1;
      forall j | 0 <= j < i ensures items[j].0 != key {
        if j > 0 { assert t[j - 1] == items[j]; }
      }
    }
  }

  // ----- Options -----

  /** The parser itself declares the option, under this spelling without its dashes. */
  predicate Declares(option: OptionEntry, spelling: string) {
    && "parser_definition" in option.referenceKinds
    && if "--" <= option.canonicalName
       then option.canonicalName == "--" + spelling else option.canonicalName == spelling
  }

  /** The declared options as (spelling, name) items. */
  lemma {:induction false} DeclaredItems(options: seq<OptionEntry>, item: (string, string))
    ensures item in Collect(options, ParserItem) <==>
              exists i :: 0 <= i < |options| && Declares(options[i], item.0) && options[i].canonicalName == item.1
  {
    if options != [] {
      var o := options[0];
      var tail := options[1..];
      DeclaredItems(tail, item);
      assert forall i :: 0 <= i < |tail| ==> tail[i] == options[i + 1];
      Spelled(o, item.0);
      if item in Collect(tail, ParserItem) {
        var i :| 0 <= i < |tail| && Declares(tail[i], item.0) && tail[i].canonicalName == item.1;
        assert Declares(options[i + 1], item.0);
      }
      if exists i :: 0 <= i < |options| && Declares(options[i], item.0) && options[i].canonicalName == item.1 {
        var i :| 0 <= i < |options| && Declares(options[i], item.0) && options[i].canonicalName == item.1;
        if i > 0 { assert Declares(tail[i - 1], item.0); }
      }
    }
  }

  lemma Spelled(option: OptionEntry, spelling: string)
    ensures Declares(option, spelling) <==> ParserItem(option) == Some((spelling, option.canonicalName))
  {
    var name := option.canonicalName;
    if "--" <= name {
      assert name == "--" + name[2..];
      assert ("--" + spelling)[2..] == spelling;
    }
  }

  /** A spelling is found exactly when an option declares it, and then one such option's name. */
  lemma SpellingFound(c: Command, spelling: string)
    ensures Get(Canonical(c), spelling).Some? <==> exists o :: o in c.options && Declares(o, spelling)
    ensures Get(Canonical(c), spelling).Some? ==>
              exists o :: o in c.options && Declares(o, spelling)
                  && o.canonicalName == Get(Canonical(c), spelling).value
  {
    hide Declares, Collect, FromItems, Get;
    var items := Collect(c.options, ParserItem);
    LastWins(items, spelling);
    if exists o :: o in c.options && Declares(o, spelling) {
      var o :| o in c.options && Declares(o, spelling);
      DeclaredItems(c.options, (spelling, o.canonicalName));
      var k :| 0 <= k < |items| && items[k] == (spelling, o.canonicalName);
    }
    if k :| 0 <= k < |items| && items[k].0 == spelling {
      var i := LastOf(items, Key(spelling));
      DeclaredItems(c.options, items[i]);
    }
  }

  /** The items of the folded dictionary are declared options, under their folded spellings. */
  lemma FoldedDictionaryItem(c: Command, item: (string, string))
    ensures item in FoldedCanonical(c) ==>
              exists o, spelling :: o in c.options && Declares(o, spelling) && Lower(spelling) == item.0
                  && o.canonicalName == item.1
  {
    hide Declares, Collect, FromItems, Get, KeysDistinct, Lower;
    FromItemsDistinct(Collect(Canonical(c), FoldItem));
    if item in FoldedCanonical(c) {
      var folded := Collect(Canonical(c), FoldItem);
      GetDistinct(FoldedCanonical(c), item.0, item.1);
      LastWins(folded, item.0);
      var k := LastOf(folded, Key(item.0));
      FoldedItems(Canonical(c));
      assert folded[k] == (Lower(Canonical(c)[k].0), Canonical(c)[k].1);
      DictionaryItem(c, Canonical(c)[k]);
    }
  }

  /** The items of the dictionary are declared options, under their spellings. */
  lemma DictionaryItem(c: Command, item: (string, string))
    requires item in Canonical(c)
    ensures exists o :: o in c.options && Declares(o, item.0) && o.canonicalName == item.1
  {
    hide Declares, Collect, FromItems, Get, KeysDistinct;
    FromItemsDistinct(Collect(c.options, ParserItem));
    GetDistinct(Canonical(c), item.0, item.1);
    SpellingFound(c, item.0);
  }

  /** Up to case, a spelling is found exactly when a declared option has it. */
  lemma FoldedSpellingFound(c: Command, body: string)
    ensures Get(FoldedCanonical(c), Lower(body)).Some? <==>
              exists o, spelling :: o in c.options && Declares(o, spelling) && SameUpToCase(spelling, body)
  {
    hide Declares, Collect, FromItems, Get, Lower, SameUpToCase;
    FoldedLastWins(Canonical(c), body);
    var d := Canonical(c);
    if i :| 0 <= i < |d| && SameUpToCase(d[i].0, body) {
      DictionaryItem(c, d[i]);
    }
    if exists o, spelling :: o in c.options && Declares(o, spelling) && SameUpToCase(spelling, body) {
      var o, spelling :| o in c.options && Declares(o, spelling) && SameUpToCase(spelling, body);
      SpellingFound(c, spelling);
      FirstWins(d, spelling);
    }
  }

  // ----- Clusters of one-letter options -----

  /** Every letter has an alias with a target, and these are the targets in order. */
  ghost predicate LettersMean(d: Dict, letters: string, targets: seq<string>) {
    && |targets| == |letters|
    && forall i :: 0 <= i < |letters| ==> Get(d, OneLetter(letters[i])) == Some(targets[i]) && targets[i] != ""
  }

  function OneLetter(letter: char): string {
    "-" + [letter]
  }

  lemma {:induction false} BundleMeans(d: Dict, letters: string)
    ensures forall targets :: LettersMean(d, letters, targets) ==> Bundle(d, letters) == Some(targets)
    ensures Bundle(d, letters).Some? ==> LettersMean(d, letters, Bundle(d, letters).value)
  {
    hide Get;
    if letters != [] {
      BundleMeans(d, letters[1..]);
      forall targets | LettersMean(d, letters, targets) ensures Bundle(d, letters) == Some(targets) {
        assert LettersMean(d, letters[1..], targets[1..]);
        assert targets == [targets[0]] + targets[1..];
      }
    }
  }

  // ----- Prefixes -----

  /** The places of the spellings that begin with the text. */
  function Beginning(d: Dict, text: string): (places: seq<nat>)
    ensures forall i :: i in places <==> 0 <= i < |d| && text <= d[i].0
    ensures forall k :: 0 <= k < |places| ==> places[k] < |d|
    ensures forall k, m :: 0 <= k < m < |places| ==> places[k] < places[m]
  {
    if d == [] then []
    else
      var last := |d| - 1;
      assert forall i :: 0 <= i < last ==> d[..last][i] == d[i];
      Beginning(d[..last], text) + if text <= d[last].0 then [last] else []
  }

  /** The targets of all spellings that begin with the text: every one, none else, in byte order. */
  lemma PrefixTargets(d: Dict, text: string)
    ensures var targets := Targets(d, text);
            && |targets| == |Beginning(d, text)| && SortedBy(targets, LexLeq)
            && forall t :: t in targets <==> exists i :: i in Beginning(d, text) && d[i].1 == t
  {
    hide Sort, LexLeq, SortedBy, StartsWith, IsOrder, Beginning;
    var found := Collect(d, Extending(text));
    LexIsOrder();
    SortSorts(found, LexLeq);
    SortPermutes(found, LexLeq);
    SortMembers(found, LexLeq);
    ExtendingCount(d, text);
    forall t ensures t in found <==> exists i :: i in Beginning(d, text) && d[i].1 == t {
      ExtendingMembers(d, text, t);
    }
  }

  lemma {:induction false} ExtendingCount(d: Dict, text: string)
    ensures |Collect(d, Extending(text))| == |Beginning(d, text)|
  {
    if d != [] {
      var last := |d| - 1;
      ExtendingCount(d[..last], text);
      CollectNext(d, last, Extending(text));
      assert d[..last + 1] == d;
    }
  }

  lemma ExtendingMembers(d: Dict, text: string, t: string)
    ensures t in Collect(d, Extending(text)) <==> exists i :: i in Beginning(d, text) && d[i].1 == t
  {
    CollectMembers(d, Extending(text), t);
    if t in Collect(d, Extending(text)) {
      var x :| x in d && Extending(text)(x) == Some(t);
      var i :| 0 <= i < |d| && d[i] == x;
      assert i in Beginning(d, text);
    }
    if i :| i in Beginning(d, text) && d[i].1 == t {
      assert Extending(text)(d[i]) == Some(t);
    }
  }

  // ----- Getopt families -----

  /** Neither a value, nor behind an operand that ended the options. */
  predicate Looked(c: Command, st: State) {
    st.pending.None? && !(IsGetopt(c) && st.stopped)
  }

  /** It begins with a sign, and is not a dash alone. */
  predicate OptionShaped(token: string) {
    token != [] && (token[0] == '-' || token[0] == '+') && token != "-"
  }

  /** The text after one sign, or after two dashes. */
  ghost predicate IsBody(token: string, body: string) {
    token == "--" + body || (!("--" <= token) && (token == "-" + body || token == "+" + body))
  }

  lemma BodyIs(token: string, body: string)
    requires IsBody(token, body)
    ensures GetoptBody(token) == Lower(body)
  {
    hide Lower;
    if token == "--" + body {
      assert token[2..] == body;
    } else {
      assert token[1..] == body;
    }
  }

  lemma Shapes(token: string)
    ensures OptionShaped(token) <==> !IsPlain(token)
    ensures StartsWith(token, "+") <==> token != [] && token[0] == '+'
    ensures StartsWith(token, "-") <==> token != [] && token[0] == '-'
  {
    assert token != [] ==> token[..1] == [token[0]];
  }

  /** In both profiles a token that is an alias up to case is that alias. */
  lemma GetoptAlias(c: Command, profile: Profile, st: State, token: string, target: string)
    requires IsGetopt(c) && Looked(c, st) && OptionShaped(token) && !(profile == PosixlyCorrect && token[0] == '+')
    requires AliasUpToCase(c, token, target)
    ensures Resolve(c, profile, st, token) == ExactAlias(target)
  {
    hide AliasUpToCase, Get, FoldedAliases, FoldedCanonical, Targets, GetoptBundle, GetoptBody, Lower, IsPlain,
         StartsWith;
    AliasLookups(c, token);
    Shapes(token);
  }

  /** What a record says of the letters of a one-dash token, if every one has an alias. */
  ghost predicate BundleIs(c: Command, token: string, bundle: Option<seq<string>>) {
    if |token| > 2 && token[0] == '-' && token[1] != '-'
    then
      && (forall targets :: LettersUpToCase(c, token[1..], targets) ==> bundle == Some(targets))
      && (bundle.Some? ==> LettersUpToCase(c, token[1..], bundle.value))
    else bundle.None?
  }

  ghost predicate LettersUpToCase(c: Command, letters: string, targets: seq<string>) {
    && |targets| == |letters|
    && forall i :: 0 <= i < |letters| ==> AliasUpToCase(c, OneLetter(letters[i]), targets[i]) && targets[i] != ""
  }

  lemma FoldedLetters(c: Command, letters: string, targets: seq<string>)
    ensures LettersUpToCase(c, letters, targets) <==> LettersMean(FoldedAliases(c), Lower(letters), targets)
  {
    hide Get, FoldedAliases, AliasUpToCase;
    if |targets| == |letters| {
      forall i | 0 <= i < |letters|
        ensures AliasUpToCase(c, OneLetter(letters[i]), targets[i]) <==>
                  Get(FoldedAliases(c), OneLetter(Lower(letters)[i])) == Some(targets[i])
      {
        AliasLookups(c, OneLetter(letters[i]));
        FoundAlias(c, OneLetter(letters[i]));
        assert Lower(OneLetter(letters[i])) == OneLetter(Lower(letters)[i]);
        OneTarget(c, OneLetter(letters[i]));
      }
    }
  }

  lemma OneTarget(c: Command, token: string)
    ensures Get(FoldedAliases(c), Lower(token)).Some? ==>
              AliasUpToCase(c, token, Get(FoldedAliases(c), Lower(token)).value)
  {
    hide Get, FoldedAliases, AliasUpToCase, Lower;
    AliasLookups(c, token);
    FoundAlias(c, token);
  }

  lemma BundleFound(c: Command, token: string)
    ensures BundleIs(c, token, GetoptBundle(c, token))
  {
    hide FoldedAliases, Bundle, Lower, LettersUpToCase, LettersMean;
    Shapes(token);
    if |token| > 2 {
      assert StartsWith(token, "--") <==> token[0] == '-' && token[1] == '-' by {
        assert token[..2] == [token[0], token[1]];
      }
      BundleMeans(FoldedAliases(c), Lower(token[1..]));
      forall targets ensures LettersUpToCase(c, token[1..], targets) <==>
                               LettersMean(FoldedAliases(c), Lower(token[1..]), targets)
      {
        FoldedLetters(c, token[1..], targets);
      }
    }
  }

  /** A token that is no alias: an exact spelling in both profiles; otherwise unknown under POSIX,
      and by the number of spellings it begins in the default profile. */
  lemma GetoptToken(c: Command, profile: Profile, st: State, token: string, body: string)
    requires IsGetopt(c) && Looked(c, st) && OptionShaped(token) && !(profile == PosixlyCorrect && token[0] == '+')
    requires NoAliasUpToCase(c, token) && IsBody(token, body)
    ensures var d, r := FoldedCanonical(c), Resolve(c, profile, st, token);
            var exact, begun := Get(d, Lower(body)), Beginning(d, Lower(body));
            if exact.Some? then r == Exact([exact.value])
            else if profile == PosixlyCorrect then r.Unknown? && r.noTargets == Some([]) && BundleIs(c, token, r.bundle)
            else if begun == [] then r.Unknown? && r.noTargets == Some([]) && BundleIs(c, token, r.bundle)
            else if |begun| == 1 then
              var only := d[begun[0]].1;
              if only in c.exactOnly then r == ExactOnlyPrefixRejected([only])
              else r.UniquePrefix? && r.targets == [only] && BundleIs(c, token, r.bundle)
            else
              && r.AmbiguousPrefix? && |r.targets| == |begun| && BundleIs(c, token, r.bundle)
              && SortedBy(r.targets, LexLeq) && forall t :: t in r.targets <==> exists i :: i in begun && d[i].1 == t
  {
    hide Get, FoldedAliases, FoldedCanonical, Targets, GetoptBundle, GetoptBody, Lower, IsPlain, StartsWith, BundleIs,
         SortedBy, LexLeq, NoAliasUpToCase, Beginning, IsBody;
    AliasLookups(c, token);
    Shapes(token);
    BodyIs(token, body);
    BundleFound(c, token);
    var d, begun := FoldedCanonical(c), Beginning(FoldedCanonical(c), Lower(body));
    PrefixTargets(d, Lower(body));
    if |begun| == 1 {
      assert begun[0] in begun;
      assert d[begun[0]].1 in Targets(d, Lower(body));
    }
  }

  /** Operands and signs that the families treat alike or not at all. */
  lemma OtherTokens(c: Command, profile: Profile, st: State, token: string)
    ensures st.pending.Some? ==> Resolve(c, profile, st, token) == OptionValue(st.pending.value)
    ensures st.pending.None? && IsGetopt(c) && st.stopped ==>
              Resolve(c, profile, st, token) == UnparsedAfterRequireOrder
    ensures st.pending.None? && c.family == NoParser ==> Resolve(c, profile, st, token) == Ignored
    ensures Looked(c, st) && IsGetopt(c) && (!OptionShaped(token) || (profile == PosixlyCorrect && token[0] == '+')) ==>
              Resolve(c, profile, st, token) == Positional(c.positionals)
    ensures Looked(c, st) && c.family == Argparse && !OptionShaped(token) ==>
              Resolve(c, profile, st, token) ==
              if st.optionAfter then RejectedAfterOptionBoundary else Positional(c.positionals)
    ensures Looked(c, st) && c.family == Argparse && OptionShaped(token) && token[0] == '+' ==>
              Resolve(c, profile, st, token) == Positional(c.positionals)
  {
    hide Get, FoldedAliases, FoldedCanonical, Canonical, Targets, GetoptBundle, GetoptBody, Bundle, Lower, IsPlain,
         StartsWith;
    Shapes(token);
  }

  // ----- Argparse -----

  /** An option-shaped token: an alias as it is written; after two dashes a spelling, or by the
      number of spellings it begins; after one dash a cluster, if every letter is an alias. */
  lemma ArgparseToken(c: Command, profile: Profile, st: State, token: string)
    requires c.family == Argparse && Looked(c, st) && OptionShaped(token) && token[0] == '-'
    ensures var d, r := Canonical(c), Resolve(c, profile, st, token);
            && (forall target :: IsAlias(c, token, target) ==> r == ExactAlias(target))
            && (NoAlias(c, token) ==>
                  if "--" <= token then
                    var exact, begun := Get(d, token[2..]), Beginning(d, token[2..]);
                    if exact.Some? then r == Exact([exact.value])
                    else if begun == [] then r == Unknown(Some([]), None)
                    else
                      && (if |begun| == 1 then r.UniquePrefix? else r.AmbiguousPrefix?) && r.bundle == None
                      && |r.targets| == |begun| && SortedBy(r.targets, LexLeq)
                      && forall t :: t in r.targets <==> exists i :: i in begun && d[i].1 == t
                  else
                    && (forall targets :: LettersMean(c.aliases, token[1..], targets) ==> r == ShortCluster(targets))
                    && ((forall targets :: !LettersMean(c.aliases, token[1..], targets)) ==> r == Unknown(None, None)))
  {
    hide Get, Canonical, Targets, Bundle, IsPlain, SortedBy, LexLeq, NoAlias, IsAlias, Beginning, LettersMean;
    AliasLookups(c, token);
    Shapes(token);
    if "--" <= token {
      PrefixTargets(Canonical(c), token[2..]);
    } else {
      BundleMeans(c.aliases, token[1..]);
    }
  }

  // ----- Options that take a value -----

  predicate TakesValue(option: string) {
    option == "--config-file" || option == "--rc" || option == "--version-script"
  }

  /** The next argument is a value exactly after a single option of the three that take one, found
      exactly, by alias, or by a prefix. */
  lemma ValueOptionMeans(r: Resolution)
    ensures ValueOption(r) ==
            match r
            case ExactAlias(target) => if TakesValue(target) then Some(target) else None
            case Exact(ts) => if |ts| == 1 && TakesValue(ts[0]) then Some(ts[0]) else None
            case UniquePrefix(ts, _) => if |ts| == 1 && TakesValue(ts[0]) then Some(ts[0]) else None
            case ExactOnlyPrefixRejected(ts) => if |ts| == 1 && TakesValue(ts[0]) then Some(ts[0]) else None
            case _ => None
  {}
}
