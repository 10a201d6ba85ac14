/** Long-option abbreviations: uniqueness, monotonicity and independence of option order. */
module Abbreviations {
  import opened Wrappers
  import opened Text
  import opened Sequences
  import opened Ordering
  import opened Resolver

  // ----- Which spellings extend a body -----

  /** Entry `k` is the one entry whose spelling extends `body`. */
  ghost predicate OnlyExtension(d: Dict, body: string, k: int) {
    && 0 <= k < |d| && StartsWith(d[k].0, body)
    && forall j :: 0 <= j < |d| && StartsWith(d[j].0, body) ==> j == k
  }

  lemma {:induction false} ExtensionCount(d: Dict, body: string)
    ensures |Collect(d, Extending(body))| == 1 <==> exists k :: OnlyExtension(d, body, k)
    ensures |Collect(d, Extending(body))| == 0 <==> forall k :: 0 <= k < |d| ==> !StartsWith(d[k].0, body)
    ensures forall k :: OnlyExtension(d, body, k) ==> Collect(d, Extending(body)) == [d[k].1]
  {
    hide StartsWith;
    if d != [] {
      var t := d[1..];
      ExtensionCount(t, body);
      assert forall j :: 0 <= j < |t| ==> t[j] == d[j + 1];
      if StartsWith(d[0].0, body) {
        if forall k :: 0 <= k < |t| ==> !StartsWith(t[k].0, body) {
          assert OnlyExtension(d, body, 0);
        } else {
          var k :| 0 <= k < |t| && StartsWith(t[k].0, body);
          assert StartsWith(d[k + 1].0, body);
        }
      } else {
        forall k | OnlyExtension(t, body, k) ensures OnlyExtension(d, body, k + 1) {
        }
        forall k | OnlyExtension(d, body, k) ensures OnlyExtension(t, body, k - 1) {
        }
      }
    }
  }

  lemma TargetsCount(d: Dict, body: string)
    ensures |Targets(d, body)| == 1 <==> exists k :: OnlyExtension(d, body, k)
    ensures forall k :: OnlyExtension(d, body, k) ==> Targets(d, body) == [d[k].1]
  {
    hide OnlyExtension, Sort;
    var found := Collect(d, Extending(body));
    ExtensionCount(d, body);
    SortPermutes(found, LexLeq);
    if |found| == 1 {
      SingletonSort(found);
    }
  }

  lemma SingletonSort(xs: seq<string>)
    requires |xs| == 1
    ensures Sort(xs, LexLeq) == xs
  {
    SortOfSorted(xs, LexLeq);
  }

  // ----- Dictionaries built by comprehension have distinct keys -----

  lemma {:induction false} PutKeys(d: Dict, key: string, value: string, other: string)
    ensures HasKey(Put(d, key, value), other) <==> HasKey(d, other) || other == key
  {
    var p := Put(d, key, value);
    if d == [] {
      assert p[0].0 == key;
    } else {
      PutKeys(d[1..], key, value, other);
      HasKeyTail(d, other);
      HasKeyTail(p, other);
      if d[0].0 == key {
        assert p[1..] == d[1..];
      } else {
        assert p[1..] == Put(d[1..], key, value);
      }
    }
  }

  lemma HasKeyTail(d: Dict, key: string)
    requires d != []
    ensures HasKey(d, key) <==> d[0].0 == key || HasKey(d[1..], key)
  {
    if HasKey(d[1..], key) {
      var i :| 0 <= i < |d[1..]| && d[1..][i].0 == key;
      assert d[i + 1].0 == key;
    }
    if i :| 0 < i < |d| && d[i].0 == key {
      assert d[1..][i - 1].0 == key;
    }
  }

  lemma KeysDistinctTail(d: Dict)
    requires d != []
    ensures KeysDistinct(d) <==> KeysDistinct(d[1..]) && !HasKey(d[1..], d[0].0)
  {
    var t := d[1..];
    assert forall i :: 0 <= i < |t| ==> t[i] == d[i + 1];
    if KeysDistinct(t) && !HasKey(t, d[0].0) {
      forall i, j | 0 <= i < j < |d| ensures d[i].0 != d[j].0 {
        assert d[j] == t[j - 1];
        if i > 0 {
          assert d[i] == t[i - 1];
        }
      }
    }
    if KeysDistinct(d) {
      forall i, j | 0 <= i < j < |t| ensures t[i].0 != t[j].0 {
        assert d[i + 1].0 != d[j + 1].0;
      }
    }
  }

  lemma {:induction false} PutDistinct(d: Dict, key: string, value: string)
    requires KeysDistinct(d)
    ensures KeysDistinct(Put(d, key, value))
  {
    hide KeysDistinct, HasKey;
    if d == [] {
      OneKey(key, value);
    } else {
      var p := Put(d, key, value);
      KeysDistinctTail(d);
      KeysDistinctTail(p);
      if d[0].0 == key {
        assert p[1..] == d[1..];
      } else {
        PutDistinct(d[1..], key, value);
        PutKeys(d[1..], key, value, d[0].0);
        assert p[1..] == Put(d[1..], key, value);
      }
    }
  }

  lemma OneKey(key: string, value: string)
    ensures KeysDistinct([(key, value)])
  {}

  lemma {:induction false} FromItemsDistinct(items: Dict)
    ensures KeysDistinct(FromItems(items))
  {
    hide Put;
    if items != [] {
      var init, last := items[..|items| - 1], items[|items| - 1];
      FromItemsDistinct(init);
      PutDistinct(FromItems(init), last.0, last.1);
    }
  }

  // ----- Abbreviation laws -----

  /** The spellings a long option is matched against, and the text matched. */
  function Spellings(c: Command): Dict {
    if c.family == Argparse then Canonical(c) else FoldedCanonical(c)
  }

  function Body(c: Command, token: string): string
    requires StartsWith(token, "--")
  {
    if c.family == Argparse then token[2..] else GetoptBody(token)
  }

  /** No alias is itself a long option, as in the reviewed alias table. */
  ghost predicate ShortAliases(c: Command) {
    forall i :: 0 <= i < |c.aliases| ==> !StartsWith(c.aliases[i].0, "--")
  }

  predicate Parses(c: Command, st: State) {
    c.family != NoParser && st.pending.None? && !(IsGetopt(c) && st.stopped)
  }

  function SingleTarget(r: Resolution): Option<string> {
    match r
    case ExactAlias(target) => Some(target)
    case Exact(ts) => if |ts| == 1 then Some(ts[0]) else None
    case UniquePrefix(ts, _) => if |ts| == 1 then Some(ts[0]) else None
    case ExactOnlyPrefixRejected(ts) => if |ts| == 1 then Some(ts[0]) else None
    case _ => None
  }

  lemma {:induction false} ShortKeys(d: Dict, key: string)
    requires forall i :: 0 <= i < |d| ==> !StartsWith(d[i].0, "--")
    requires StartsWith(key, "--")
    ensures Get(d, key).None?
  {
    hide StartsWith;
    if d != [] {
      assert forall i :: 0 <= i < |d[1..]| ==> d[1..][i] == d[i + 1];
      ShortKeys(d[1..], key);
    }
  }

  lemma {:induction false} FoldedShort(d: Dict)
    requires forall i :: 0 <= i < |d| ==> !StartsWith(d[i].0, "--")
    ensures forall i :: 0 <= i < |Collect(d, FoldItem)| ==> !StartsWith(Collect(d, FoldItem)[i].0, "--")
  {
    if d != [] {
      FoldedShort(d[1..]);
      LowerKeepsDashes(d[0].0);
    }
  }

  lemma LowerKeepsDashes(s: string)
    ensures StartsWith(Lower(s), "--") <==> StartsWith(s, "--")
  {
    assert forall i :: 0 <= i < |s| ==> (Lower(s)[i] == '-' <==> s[i] == '-');
  }

  lemma {:induction false} FromItemsShort(items: Dict, key: string)
    requires forall i :: 0 <= i < |items| ==> !StartsWith(items[i].0, "--")
    requires StartsWith(key, "--")
    ensures !HasKey(FromItems(items), key)
  {
    hide StartsWith;
    if items != [] {
      var init, last := items[..|items| - 1], items[|items| - 1];
      FromItemsShort(init, key);
      PutKeys(FromItems(init), last.0, last.1, key);
    }
  }

  lemma {:induction false} GetNone(d: Dict, key: string)
    ensures Get(d, key).Some? <==> HasKey(d, key)
  {
    if d != [] {
      HasKeyTail(d, key);
      GetNone(d[1..], key);
    }
  }

  lemma NoLongAlias(c: Command, token: string)
    requires ShortAliases(c) && StartsWith(token, "--")
    ensures Get(c.aliases, token).None? && Get(FoldedAliases(c), Lower(token)).None?
  {
    hide StartsWith, Lower, Get, FromItems, Collect;
    ShortKeys(c.aliases, token);
    FoldedShort(c.aliases);
    LowerKeepsDashes(token);
    FromItemsShort(Collect(c.aliases, FoldItem), Lower(token));
    GetNone(FoldedAliases(c), Lower(token));
  }

  /** What a long option resolves to, in terms of the spellings alone. */
  lemma LongOption(c: Command, st: State, token: string)
    requires ShortAliases(c) && Parses(c, st) && StartsWith(token, "--")
    ensures var r, exact := Resolve(c, Default, st, token), Get(Spellings(c), Body(c, token));
            var targets := Targets(Spellings(c), Body(c, token));
            if exact.Some? then r == Exact([exact.value])
            else if |targets| == 1 then (r.UniquePrefix? || r.ExactOnlyPrefixRejected?) && r.targets == targets
            else if targets != [] then r.AmbiguousPrefix? && r.targets == targets
            else r.Unknown?
  {
    NoLongAlias(c, token);
    LongIsNotPlain(token);
    hide StartsWith, Lower, Get, Targets, Canonical, FoldedCanonical, FoldedAliases, GetoptBundle, GetoptBody;
  }

  lemma LongIsNotPlain(token: string)
    requires StartsWith(token, "--")
    ensures !IsPlain(token) && !StartsWith(token, "+")
  {
    assert token[0] == '-' && |token| >= 2;
  }

  /** A long option that is no exact spelling resolves to one target iff exactly one spelling
      extends it, and then to that spelling's target. */
  lemma UniqueAbbreviation(c: Command, st: State, token: string)
    requires ShortAliases(c) && Parses(c, st) && StartsWith(token, "--")
    requires Get(Spellings(c), Body(c, token)).None?
    ensures var d, r := Spellings(c), SingleTarget(Resolve(c, Default, st, token));
            && (r.Some? <==> exists k :: OnlyExtension(d, Body(c, token), k))
            && (forall k :: OnlyExtension(d, Body(c, token), k) ==> r == Some(d[k].1))
  {
    hide Resolve, Targets, Get, OnlyExtension, StartsWith;
    LongOption(c, st, token);
    TargetsCount(Spellings(c), Body(c, token));
  }

  /** The bare token `--` is an abbreviation like any other, one that every spelling extends. Unless
      a spelling is empty, it resolves to the only spelling, is ambiguous between several, and is
      unknown to a parser without options. */
  lemma BareDashes(c: Command, st: State)
    requires ShortAliases(c) && Parses(c, st)
    ensures var d, r := Spellings(c), Resolve(c, Default, st, "--");
            if HasKey(d, "") then r.Exact?
            else if |d| == 1 then (r.UniquePrefix? || r.ExactOnlyPrefixRejected?) && r.targets == [d[0].1]
            else if |d| > 1 then r.AmbiguousPrefix? && |r.targets| == |d| && multiset(r.targets) == multiset(Names(d))
            else r.Unknown?
  {
    hide Resolve, Targets, Get, Spellings;
    var d := Spellings(c);
    assert Body(c, "--") == "";
    LongOption(c, st, "--");
    GetNone(d, "");
    EveryTarget(d);
    if |d| == 1 {
      assert Names(d) == [d[0].1];
      OneTarget(Targets(d, ""), d[0].1);
    }
  }

  /** The targets of all spellings. */
  function Names(d: Dict): (r: seq<string>)
    ensures |r| == |d| && forall i :: 0 <= i < |d| ==> r[i] == d[i].1
  {
    seq(|d|, i requires 0 <= i < |d| => d[i].1)
  }

  lemma {:induction false} EveryExtends(d: Dict)
    ensures Collect(d, Extending("")) == Names(d)
  {
    if d != [] {
      EveryExtends(d[1..]);
      assert StartsWith(d[0].0, "");
      assert Names(d) == [d[0].1] + Names(d[1..]);
    }
  }

  lemma EveryTarget(d: Dict)
    ensures |Targets(d, "")| == |d| && multiset(Targets(d, "")) == multiset(Names(d))
  {
    hide Sort, Collect, Names;
    EveryExtends(d);
    SortPermutes(Names(d), LexLeq);
    assert |multiset(Targets(d, ""))| == |multiset(Names(d))|;
  }

  lemma OneTarget(targets: seq<string>, name: string)
    requires multiset(targets) == multiset([name])
    ensures targets == [name]
  {
    assert |targets| == |multiset(targets)| == 1;
    assert targets[0] in multiset(targets);
  }

  /** Lengthening a unique abbreviation towards its spelling never changes the target. */
  lemma AbbreviationMonotone(c: Command, st: State, token: string, longer: string, k: nat)
    requires ShortAliases(c) && Parses(c, st) && StartsWith(token, "--") && StartsWith(longer, "--")
    requires OnlyExtension(Spellings(c), Body(c, token), k)
    requires StartsWith(Body(c, longer), Body(c, token)) && StartsWith(Spellings(c)[k].0, Body(c, longer))
    ensures SingleTarget(Resolve(c, Default, st, longer)) == Some(Spellings(c)[k].1)
  {
    hide Resolve, Targets, Get, Spellings, Body;
    var d, body := Spellings(c), Body(c, longer);
    LongOption(c, st, longer);
    TargetsCount(d, body);
    assert OnlyExtension(d, body, k);
    if Get(d, body).Some? {
      SpellingsDistinct(c);
      GetDistinct(d, body, Get(d, body).value);
      var j :| 0 <= j < |d| && d[j] == (body, Get(d, body).value);
      assert StartsWith(d[j].0, body);
    }
  }

  lemma SpellingsDistinct(c: Command)
    ensures KeysDistinct(Spellings(c))
  {
    hide FromItems, KeysDistinct;
    FromItemsDistinct(Collect(c.options, ParserItem));
    FromItemsDistinct(Collect(Canonical(c), FoldItem));
  }

  // ----- Option order -----

  /** The parser's options have distinct spellings, even after case folding. */
  ghost predicate FoldedNamesDistinct(c: Command) {
    KeysDistinct(Collect(Collect(c.options, ParserItem), FoldItem))
  }

  lemma {:induction false} CollectFold(d: Dict)
    ensures var f := Collect(d, FoldItem);
            |f| == |d| && forall i :: 0 <= i < |d| ==> f[i] == (Lower(d[i].0), d[i].1)
  {
    hide Lower;
    if d != [] {
      CollectFold(d[1..]);
    }
  }

  /** With distinct folded names both dictionaries hold the options as they come. */
  lemma DistinctDictionaries(c: Command)
    requires FoldedNamesDistinct(c)
    ensures var items := Collect(c.options, ParserItem);
            && Canonical(c) == items && FoldedCanonical(c) == Collect(items, FoldItem)
            && KeysDistinct(items)
  {
    hide Lower, Collect, FromItems;
    var items := Collect(c.options, ParserItem);
    CollectFold(items);
    forall i, j | 0 <= i < j < |items| ensures items[i].0 != items[j].0 {
      assert Collect(items, FoldItem)[i].0 != Collect(items, FoldItem)[j].0;
    }
    FromDistinctItems(items);
    FromDistinctItems(Collect(items, FoldItem));
  }

  lemma TargetsPermute(d: Dict, d': Dict, body: string)
    requires multiset(d) == multiset(d')
    ensures Targets(d, body) == Targets(d', body)
  {
    hide Collect, Sort, LexLeq;
    CollectPermutes(d, d', Extending(body));
    LexIsOrder();
    SortCanonical(Collect(d, Extending(body)), Collect(d', Extending(body)), LexLeq);
  }

  ghost predicate Reordered(c: Command, c': Command) {
    c' == c.(options := c'.options) && multiset(c.options) == multiset(c'.options)
  }

  lemma ReorderedDictionaries(c: Command, c': Command, key: string)
    requires Reordered(c, c') && FoldedNamesDistinct(c) && FoldedNamesDistinct(c')
    ensures Get(Canonical(c), key) == Get(Canonical(c'), key)
    ensures Get(FoldedCanonical(c), key) == Get(FoldedCanonical(c'), key)
    ensures Targets(Canonical(c), key) == Targets(Canonical(c'), key)
    ensures Targets(FoldedCanonical(c), key) == Targets(FoldedCanonical(c'), key)
  {
    hide Collect, Canonical, FoldedCanonical, Get, Targets, KeysDistinct;
    var items, items' := Collect(c.options, ParserItem), Collect(c'.options, ParserItem);
    DistinctDictionaries(c);
    DistinctDictionaries(c');
    CollectPermutes(c.options, c'.options, ParserItem);
    CollectPermutes(items, items', FoldItem);
    GetPermutes(items, items', key);
    GetPermutes(Collect(items, FoldItem), Collect(items', FoldItem), key);
    TargetsPermute(items, items', key);
    TargetsPermute(Collect(items, FoldItem), Collect(items', FoldItem), key);
  }

  lemma ReorderedStep(c: Command, c': Command, profile: Profile, st: State, token: string)
    requires Reordered(c, c') && FoldedNamesDistinct(c) && FoldedNamesDistinct(c')
    ensures Resolve(c, profile, st, token) == Resolve(c', profile, st, token)
    ensures Next(c, profile, st, token) == Next(c', profile, st, token)
  {
    hide Canonical, FoldedCanonical, Get, Targets, FoldedNamesDistinct, GetoptBody, StartsWith, Bundle, Lower;
    ReorderedDictionaries(c, c', GetoptBody(token));
    LongLength(token);
    if StartsWith(token, "--") {
      ReorderedDictionaries(c, c', token[2..]);
    }
  }

  lemma LongLength(token: string)
    ensures StartsWith(token, "--") ==> |token| >= 2
  {}

  lemma {:induction false} ReorderedStates(c: Command, c': Command, arguments: seq<string>, profile: Profile, k: nat)
    requires Reordered(c, c') && FoldedNamesDistinct(c) && FoldedNamesDistinct(c') && k <= |arguments|
    ensures StateAt(c, profile, arguments, k) == StateAt(c', profile, arguments, k)
  {
    hide Next, Reordered, FoldedNamesDistinct;
    if k > 0 {
      ReorderedStates(c, c', arguments, profile, k - 1);
      ReorderedStep(c, c', profile, StateAt(c, profile, arguments, k - 1), arguments[k - 1]);
    }
  }

  lemma ReorderedDistinct(c: Command, c': Command)
    requires Reordered(c, c') && FoldedNamesDistinct(c)
    ensures FoldedNamesDistinct(c')
  {
    hide Collect;
    var items, items' := Collect(c.options, ParserItem), Collect(c'.options, ParserItem);
    CollectPermutes(c.options, c'.options, ParserItem);
    CollectPermutes(items, items', FoldItem);
    DistinctPermutes(Collect(items, FoldItem), Collect(items', FoldItem));
  }

  lemma {:induction false} DistinctPermutes(d: Dict, d': Dict)
    requires KeysDistinct(d) && multiset(d) == multiset(d')
    ensures KeysDistinct(d')
  {
    if d == [] {
      assert |multiset(d')| == 0;
    } else {
      KeysDistinctTail(d);
      var left, right := TakeOut(d, d');
      DistinctPermutes(d[1..], left + right);
      forall e: (string, string) | e in left + right ensures e.0 != d[0].0 {
        assert e in multiset(left + right);
        assert e in multiset(d[1..]);
        var i :| 0 <= i < |d[1..]| && d[1..][i] == e;
      }
      InsertedDistinct(left, d[0], right);
    }
  }

  lemma InsertedDistinct(left: Dict, x: (string, string), right: Dict)
    requires KeysDistinct(left + right) && forall e :: e in left + right ==> e.0 != x.0
    ensures KeysDistinct(left + [x] + right)
  {
    var all, rest := left + [x] + right, left + right;
    forall i, j | 0 <= i < j < |all| ensures all[i].0 != all[j].0 {
      var i', j' := if i < |left| then i else i - 1, if j < |left| then j else j - 1;
      if i == |left| {
        assert all[j] == rest[j'];
        assert all[j] in rest;
      } else if j == |left| {
        assert all[i] == rest[i'];
        assert all[i] in rest;
      } else {
        assert all[i] == rest[i'] && all[j] == rest[j'];
      }
    }
  }

  /** When folded names are distinct, the order of the inventory's options never shows in a
      signature, in either profile and for every family. */
  lemma OptionOrderIrrelevant(c: Command, c': Command, arguments: seq<string>, profile: Profile)
    requires Reordered(c, c') && FoldedNamesDistinct(c)
    ensures Signature(c, arguments, profile) == Signature(c', arguments, profile)
  {
    hide Resolve, StateAt, Reordered, FoldedNamesDistinct;
    ReorderedDistinct(c, c');
    forall i: nat | i <= |arguments|
      ensures StateAt(c, profile, arguments, i) == StateAt(c', profile, arguments, i)
    {
      ReorderedStates(c, c', arguments, profile, i);
    }
    forall i | 0 <= i < |arguments|
      ensures ResolutionAt(c, profile, arguments, i) == ResolutionAt(c', profile, arguments, i)
    {
      assert StateAt(c, profile, arguments, i) == StateAt(c', profile, arguments, i);
      ReorderedStep(c, c', profile, StateAt(c, profile, arguments, i), arguments[i]);
    }
  }
}
