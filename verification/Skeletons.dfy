/** Generated case skeletons: one bucketed fragment per responsibility domain and hash bucket. */
module Skeletons {
  import opened Wrappers
  import opened Decimal
  import opened Ordering
  import opened Sequences
  import opened Contract
  import opened Merge

  datatype InventoryEntry = InventoryEntry(
    id: string,
    isPublic: bool,
    applicability: Applicability,
    sources: seq<Source>)

  datatype CommandEntry = CommandEntry(name: string, options: seq<InventoryEntry>, positionals: seq<InventoryEntry>)

  datatype Inventory = Inventory(
    commands: seq<CommandEntry>,
    configKeys: seq<InventoryEntry>,
    supportScripts: seq<InventoryEntry>)

  datatype Item =
    | OptionItem(entry: InventoryEntry, command: string)
    | PositionalItem(entry: InventoryEntry, command: string)
    | ConfigItem(entry: InventoryEntry)
    | SupportScriptItem(entry: InventoryEntry)

  const BUCKETS := 8

  // ----- Public inventory -----

  function OptionsOf(command: string): InventoryEntry -> Option<Item> {
    (e: InventoryEntry) => Some(OptionItem(e, command))
  }

  function PositionalsOf(command: string): InventoryEntry -> Option<Item> {
    (e: InventoryEntry) => Some(PositionalItem(e, command))
  }

  function CommandItems(commands: seq<CommandEntry>): seq<Item> {
    if commands == [] then []
    else Collect(commands[0].options, OptionsOf(commands[0].name))
         + Collect(commands[0].positionals, PositionalsOf(commands[0].name))
         + CommandItems(commands[1..])
  }

  function ItemId(item: Item): string {
    item.entry.id
  }

  function InventoryItems(inv: Inventory): seq<Item> {
    Sort(CommandItems(inv.commands)
         + Collect(inv.configKeys, (e: InventoryEntry) => Some(ConfigItem(e)))
         + Collect(inv.supportScripts, (e: InventoryEntry) => Some(SupportScriptItem(e))), ByKey(ItemId))
  }

  function IfPublic(item: Item): Option<Item> {
    if item.entry.isPublic && item.entry.applicability != NotApplicable then Some(item) else None
  }

  function PublicItems(inv: Inventory): seq<Item> {
    Collect(InventoryItems(inv), IfPublic)
  }

  // ----- Skeletons -----

  function SkeletonId(item: Item): string {
    "case.acceptance." + item.entry.id
  }

  /** `make_source_references`: the references as upstream sources, by path, line and kind. */
  function UpstreamSource(s: Source): Option<Source> {
    Some(Source("lcov-v2.5", s.path, s.line, s.kind, None))
  }

  function PlaceOrder(a: Source, b: Source): bool {
    if a.path != b.path then LexLeq(a.path, b.path)
    else if a.line != b.line then a.line < b.line
    else LexLeq(a.kind, b.kind)
  }

  function Skeleton(item: Item): Case {
    Case(SkeletonId(item), GeneratedSkeleton, Acceptance,
         if item.ConfigItem? then "config" else if item.SupportScriptItem? then "installation" else "cli",
         "Unreviewed acceptance skeleton for " + item.entry.id + "; observable semantics, "
         + "fixtures, and expected outcomes require manual adjudication.",
         [Target(item.entry.id, Primary)], [], ["exit", "filesystem", "stderr", "stdout"],
         item.entry.applicability, Unreviewed, NoEvidence,
         Sort(Collect(item.entry.sources, UpstreamSource), PlaceOrder), [], [], [])
  }

  /** The skeletons of the public entries that no authored case covers. */
  function Needed(authored: set<string>): Item -> Option<Case> {
    (item: Item) => if SkeletonId(item) in authored then None else Some(Skeleton(item))
  }

  function SkeletonCases(items: seq<Item>, authored: set<string>): seq<Case> {
    Collect(items, Needed(authored))
  }

  // ----- Domains and buckets -----

  function Dashed(name: string): string {
    seq(|name|, i requires 0 <= i < |name| => if name[i] == '.' then '-' else name[i])
  }

  function CommandDomain(name: string): string {
    "command-" + Dashed(name)
  }

  function Domain(item: Item): string {
    match item
    case OptionItem(_, command) => CommandDomain(command)
    case PositionalItem(_, command) => CommandDomain(command)
    case ConfigItem(_) => "config"
    case SupportScriptItem(_) => "support-scripts"
  }

  function DomainOf(command: CommandEntry): Option<string> {
    Some(CommandDomain(command.name))
  }

  function Domains(inv: Inventory): seq<string> {
    Collect(inv.commands, DomainOf) + ["config", "support-scripts"]
  }

  type Bucket = (string, nat)

  function BucketOf(item: Item, hash: string -> nat): Bucket {
    (Domain(item), hash(item.entry.id) % BUCKETS)
  }

  lemma {:induction false} CommandItemDomains(commands: seq<CommandEntry>, item: Item)
    requires item in CommandItems(commands)
    ensures Domain(item) in Collect(commands, DomainOf)
  {
    hide Collect, CommandDomain;
    var c := commands[0];
    CollectUnfold(commands, DomainOf);
    if item in Collect(c.options, OptionsOf(c.name)) {
      CollectMembers(c.options, OptionsOf(c.name), item);
    } else if item in Collect(c.positionals, PositionalsOf(c.name)) {
      CollectMembers(c.positionals, PositionalsOf(c.name), item);
    } else {
      CommandItemDomains(commands[1..], item);
    }
  }

  lemma CollectUnfold<A, B>(xs: seq<A>, f: A -> Option<B>)
    requires xs != []
    ensures Collect(xs, f) == (if f(xs[0]).Some? then [f(xs[0]).value] else []) + Collect(xs[1..], f)
  {}

  /** Every public item's domain is one of those the buckets are made for. */
  lemma PublicDomains(inv: Inventory, item: Item)
    requires item in PublicItems(inv)
    ensures Domain(item) in Domains(inv)
  {
    hide Collect, Sort, CommandItems, CommandDomain;
    var configs := Collect(inv.configKeys, (e: InventoryEntry) => Some(ConfigItem(e)));
    var scripts := Collect(inv.supportScripts, (e: InventoryEntry) => Some(SupportScriptItem(e)));
    CollectMembers(InventoryItems(inv), IfPublic, item);
    SortMembers(CommandItems(inv.commands) + configs + scripts, ByKey(ItemId));
    assert item in CommandItems(inv.commands) || item in configs || item in scripts;
    CollectMembers(inv.configKeys, (e: InventoryEntry) => Some(ConfigItem(e)), item);
    CollectMembers(inv.supportScripts, (e: InventoryEntry) => Some(SupportScriptItem(e)), item);
    if item in CommandItems(inv.commands) {
      CommandItemDomains(inv.commands, item);
    }
  }

  /** The keys of a dictionary comprehension, in order of first appearance. */
  function Unique(xs: seq<string>): seq<string> {
    if xs == [] then []
    else
      var init, last := Unique(xs[..|xs| - 1]), xs[|xs| - 1];
      if last in init then init else init + [last]
  }

  lemma {:induction false} UniqueFacts(xs: seq<string>)
    ensures Distinct(Unique(xs)) && forall x :: x in Unique(xs) <==> x in xs
  {
    if xs != [] {
      UniqueFacts(xs[..|xs| - 1]);
      assert xs == xs[..|xs| - 1] + [xs[|xs| - 1]];
    }
  }

  function BucketsOf(domain: string, n: nat): (keys: seq<Bucket>)
    ensures |keys| == n
    ensures forall b :: 0 <= b < n ==> keys[b] == (domain, b)
  {
    seq(n, b => (domain, b))
  }

  function BucketKeys(domains: seq<string>): seq<Bucket> {
    if domains == [] then []
    else BucketKeys(domains[..|domains| - 1]) + BucketsOf(domains[|domains| - 1], BUCKETS)
  }

  lemma {:induction false} BucketKeysFacts(domains: seq<string>)
    requires Distinct(domains)
    ensures Distinct(BucketKeys(domains))
    ensures forall k: Bucket :: k in BucketKeys(domains) <==> k.0 in domains && k.1 < BUCKETS
  {
    if domains != [] {
      var init, last := domains[..|domains| - 1], domains[|domains| - 1];
      BucketKeysFacts(init);
      var a, b := BucketKeys(init), BucketsOf(last, BUCKETS);
      assert domains == init + [last];
      forall k: Bucket ensures k in b <==> k.0 == last && k.1 < BUCKETS {
        if k.0 == last && k.1 < BUCKETS {
          assert b[k.1] == k;
        }
      }
      forall i, j | 0 <= i < j < |a + b| ensures (a + b)[i] != (a + b)[j] {
        if i < |a| <= j {
          assert (a + b)[i] in a && (a + b)[j] in b;
        }
      }
    }
  }

  /** All cases in the buckets, key after key. */
  function Flat(grouped: map<Bucket, seq<Case>>, keys: seq<Bucket>): seq<Case>
    requires forall i :: 0 <= i < |keys| ==> keys[i] in grouped
  {
    if keys == [] then [] else Flat(grouped, keys[..|keys| - 1]) + grouped[keys[|keys| - 1]]
  }

  lemma {:induction false} FlatUntouched(grouped: map<Bucket, seq<Case>>, keys: seq<Bucket>, k: Bucket,
                                         cases: seq<Case>)
    requires (forall i :: 0 <= i < |keys| ==> keys[i] in grouped) && k !in keys
    ensures Flat(grouped[k := cases], keys) == Flat(grouped, keys)
  {
    if keys != [] {
      FlatUntouched(grouped, keys[..|keys| - 1], k, cases);
    }
  }

  /** Appending to one bucket adds that case once to the whole. */
  lemma {:induction false} FlatAppend(grouped: map<Bucket, seq<Case>>, keys: seq<Bucket>, k: Bucket, c: Case)
    requires (forall i :: 0 <= i < |keys| ==> keys[i] in grouped) && Distinct(keys) && k in keys
    ensures multiset(Flat(grouped[k := grouped[k] + [c]], keys)) == multiset(Flat(grouped, keys)) + multiset{c}
  {
    var init, last := keys[..|keys| - 1], keys[|keys| - 1];
    assert keys == init + [last];
    if k == last {
      assert k !in init;
      FlatUntouched(grouped, init, k, grouped[k] + [c]);
    } else {
      FlatAppend(grouped, init, k, c);
    }
  }

  lemma {:induction false} FlatEmpty(grouped: map<Bucket, seq<Case>>, keys: seq<Bucket>)
    requires forall i :: 0 <= i < |keys| ==> keys[i] in grouped && grouped[keys[i]] == []
    ensures Flat(grouped, keys) == []
  {
    if keys != [] {
      FlatEmpty(grouped, keys[..|keys| - 1]);
    }
  }

  function BucketId(key: Bucket): string {
    "generated.inventory." + key.0 + "." + Print(key.1)
  }

  const BEHAVIOR_FRAGMENT_ID: string := "generated.behavior-groups"

  function CasesOf(f: Fragment): seq<Case> {
    f.caseGroups
  }

  function BehaviorFragment(behaviors: seq<Entry>): Fragment {
    Fragment(BEHAVIOR_FRAGMENT_ID, [], Sort(behaviors, ByKey(EntryId)), [], [])
  }

  function BucketFragment(key: Bucket, cases: seq<Case>): Fragment {
    Fragment(BucketId(key), [], [], [], Sort(cases, ByKey(CaseId)))
  }

  /** The needed skeletons that belong in one bucket. */
  function NeededIn(authored: set<string>, hash: string -> nat, key: Bucket): Item -> Option<Case> {
    (item: Item) => if SkeletonId(item) in authored || BucketOf(item, hash) != key then None else Some(Skeleton(item))
  }

  /** The behaviour fragment, and then one fragment per bucket with that bucket's cases. */
  ghost predicate Emitted(fragments: seq<Fragment>, keys: seq<Bucket>, cases: Bucket -> seq<Case>,
                          behaviors: seq<Entry>)
  {
    && |fragments| == |keys| + 1
    && fragments[0] == BehaviorFragment(behaviors)
    && forall i {:trigger keys[i]} :: 0 <= i < |keys| ==> fragments[i + 1] == BucketFragment(keys[i], cases(keys[i]))
  }

  /** `generated_fragments`. Every dictionary lookup below is proved to find its key; each bucket's
      fragment holds that bucket's skeletons; over all fragments the cases are exactly the needed
      skeletons, none lost and none repeated; and no two fragments share an id. */
  method GeneratedFragments(inv: Inventory, behaviors: seq<Entry>, authored: set<string>, hash: string -> nat)
    returns (fragments: seq<Fragment>)
    ensures Emitted(fragments, InventoryBuckets(inv),
                    key => Collect(PublicItems(inv), NeededIn(authored, hash, key)), behaviors)
    ensures multiset(Gather(fragments, CasesOf)) == multiset(SkeletonCases(PublicItems(inv), authored))
    ensures Distinct(Ids(fragments, FragmentId))
  {
    hide PublicItems, Skeleton, SkeletonId, InventoryBuckets, SkeletonCases, Flat, Ids, BucketOf, Collect,
         BehaviorFragment, BucketFragment, Gather;
    var keys := InventoryBuckets(inv);
    InventoryBucketsFacts(inv);
    var grouped: map<Bucket, seq<Case>> := map k | k in keys :: [];
    FlatEmpty(grouped, keys);
    var items := PublicItems(inv);
    NoSkeletons(authored);
    forall key: Bucket ensures Collect(items[..0], NeededIn(authored, hash, key)) == [] {
      CollectEmpty(NeededIn(authored, hash, key));
    }
    for n := 0 to |items|
      invariant grouped.Keys == (set k | k in keys)
      invariant forall key :: key in grouped ==> grouped[key] == Collect(items[..n], NeededIn(authored, hash, key))
      invariant multiset(Flat(grouped, keys)) == multiset(SkeletonCases(items[..n], authored))
    {
      var item := items[n];
      SkeletonStep(items, n, authored);
      BucketStep(items, n, authored, hash);
      if SkeletonId(item) !in authored {
        BucketExists(inv, item, hash);
        var key := BucketOf(item, hash);
        FlatAppend(grouped, keys, key, Skeleton(item));
        grouped := grouped[key := grouped[key] + [Skeleton(item)]];
      }
    }
    assert items[..|items|] == items;
    fragments := EmitBuckets(grouped, keys, behaviors);
  }

  lemma BucketStep(items: seq<Item>, n: nat, authored: set<string>, hash: string -> nat)
    requires n < |items|
    ensures forall key: Bucket ::
              Collect(items[..n + 1], NeededIn(authored, hash, key)) ==
              Collect(items[..n], NeededIn(authored, hash, key))
              + if SkeletonId(items[n]) !in authored && BucketOf(items[n], hash) == key then [Skeleton(items[n])]
                else []
  {
    hide Collect, Skeleton, SkeletonId, BucketOf;
    forall key: Bucket ensures
      Collect(items[..n + 1], NeededIn(authored, hash, key)) ==
      Collect(items[..n], NeededIn(authored, hash, key))
      + if SkeletonId(items[n]) !in authored && BucketOf(items[n], hash) == key then [Skeleton(items[n])] else []
    {
      CollectNext(items, n, NeededIn(authored, hash, key));
    }
  }

  /** The keys of the bucket dictionary, sorted. */
  function InventoryBuckets(inv: Inventory): seq<Bucket> {
    BucketKeys(Sort(Unique(Domains(inv)), LexLeq))
  }

  lemma InventoryBucketsFacts(inv: Inventory)
    ensures Distinct(InventoryBuckets(inv))
    ensures forall k: Bucket :: k in InventoryBuckets(inv) <==> k.0 in Domains(inv) && k.1 < BUCKETS
  {
    hide Sort, Domains, BucketKeys;
    UniqueFacts(Domains(inv));
    SortMembers(Unique(Domains(inv)), LexLeq);
    SortKeepsDistinct(Unique(Domains(inv)));
    BucketKeysFacts(Sort(Unique(Domains(inv)), LexLeq));
  }

  lemma BucketExists(inv: Inventory, item: Item, hash: string -> nat)
    requires item in PublicItems(inv)
    ensures BucketOf(item, hash) in InventoryBuckets(inv)
  {
    hide PublicItems, InventoryBuckets, Domains, Domain;
    InventoryBucketsFacts(inv);
    PublicDomains(inv, item);
  }

  lemma NoSkeletons(authored: set<string>)
    ensures SkeletonCases([], authored) == []
  {}

  lemma SkeletonStep(items: seq<Item>, n: nat, authored: set<string>)
    requires n < |items|
    ensures SkeletonCases(items[..n + 1], authored) ==
            SkeletonCases(items[..n], authored)
            + if SkeletonId(items[n]) in authored then [] else [Skeleton(items[n])]
  {
    hide Collect, Skeleton, SkeletonId;
    CollectNext(items, n, Needed(authored));
  }

  lemma SortKeepsDistinct(xs: seq<string>)
    requires Distinct(xs)
    ensures Distinct(Sort(xs, LexLeq))
  {
    hide Sort, LexLeq, Distinct;
    SortPermutes(xs, LexLeq);
    DistinctPermutes(xs, Sort(xs, LexLeq));
  }

  /** One fragment per bucket, after the imported behaviour groups. */
  method EmitBuckets(grouped: map<Bucket, seq<Case>>, keys: seq<Bucket>, behaviors: seq<Entry>)
    returns (fragments: seq<Fragment>)
    requires (forall i :: 0 <= i < |keys| ==> keys[i] in grouped) && Distinct(keys)
    requires forall i :: 0 <= i < |keys| ==> 0 <= keys[i].1 < BUCKETS
    ensures |fragments| == |keys| + 1 && fragments[0] == BehaviorFragment(behaviors)
    ensures forall i {:trigger keys[i]} :: 0 <= i < |keys| ==>
              fragments[i + 1] == BucketFragment(keys[i], grouped[keys[i]])
    ensures multiset(Gather(fragments, CasesOf)) == multiset(Flat(grouped, keys))
    ensures Distinct(Ids(fragments, FragmentId))
  {
    hide Sort, ByKey, BucketId, Ids, Gather, BEHAVIOR_FRAGMENT_ID;
    fragments := [Fragment(BEHAVIOR_FRAGMENT_ID, [], Sort(behaviors, ByKey(EntryId)), [], [])];
    GatherOne(fragments[0], CasesOf);
    for n := 0 to |keys|
      invariant |fragments| == n + 1 && fragments[0] == BehaviorFragment(behaviors)
      invariant forall i {:trigger keys[i]} :: 0 <= i < n ==>
                  fragments[i + 1] == BucketFragment(keys[i], grouped[keys[i]])
      invariant multiset(Gather(fragments, CasesOf)) == multiset(Flat(grouped, keys[..n]))
    {
      var fragment := Fragment(BucketId(keys[n]), [], [], [], Sort(grouped[keys[n]], ByKey(CaseId)));
      SortPermutes(grouped[keys[n]], ByKey(CaseId));
      GatherAppend(fragments, [fragment], CasesOf);
      GatherOne(fragment, CasesOf);
      assert keys[..n + 1][..n] == keys[..n];
      fragments := fragments + [fragment];
    }
    assert keys[..|keys|] == keys;
    BucketFragmentsDistinct(fragments, keys);
  }

  lemma BucketFragmentsDistinct(fragments: seq<Fragment>, keys: seq<Bucket>)
    requires |fragments| == |keys| + 1 && fragments[0].id == BEHAVIOR_FRAGMENT_ID && Distinct(keys)
    requires forall i :: 0 <= i < |keys| ==> fragments[i + 1].id == BucketId(keys[i]) && 0 <= keys[i].1 < BUCKETS
    ensures Distinct(Ids(fragments, FragmentId))
  {
    hide BucketId;
    var ids := Ids(fragments, FragmentId);
    forall i, j | 0 <= i < j < |ids| ensures ids[i] != ids[j] {
      assert ids[j] == fragments[(j - 1) + 1].id == BucketId(keys[j - 1]);
      BucketIdNew(keys[j - 1]);
      if i > 0 {
        assert ids[i] == fragments[(i - 1) + 1].id == BucketId(keys[i - 1]);
        BucketIdInjective(keys[i - 1], keys[j - 1]);
      }
    }
  }

  lemma BucketIdNew(key: Bucket)
    ensures BucketId(key) != BEHAVIOR_FRAGMENT_ID
  {
    assert BucketId(key)[10] == 'i' && BEHAVIOR_FRAGMENT_ID[10] == 'b';
  }

  lemma BucketIdInjective(a: Bucket, b: Bucket)
    requires a.1 < BUCKETS && b.1 < BUCKETS
    ensures BucketId(a) == BucketId(b) ==> a == b
  {
    var s, t := BucketId(a), BucketId(b);
    assert s[|s| - 1] == Digit(a.1) && t[|t| - 1] == Digit(b.1);
    assert s[20..|s| - 2] == a.0 && t[20..|t| - 2] == b.0;
  }

  // ----- Every public entry has exactly one acceptance case -----

  ghost predicate ExactlyOne(cases: seq<Case>, id: string) {
    exists k :: 0 <= k < |cases| && cases[k].id == id && forall j :: 0 <= j < |cases| && cases[j].id == id ==> j == k
  }

  function AuthoredIds(fragments: seq<Fragment>): set<string> {
    set c | c in Gather(fragments, CasesOf) :: c.id
  }

  /** In every accepted merge of authored and generated fragments, each public inventory entry
      has exactly one case with its acceptance id, whoever wrote it. */
  lemma EveryEntryOnce(inv: Inventory, authored: seq<Fragment>, generated: seq<Fragment>, item: Item)
    requires multiset(Gather(generated, CasesOf)) ==
             multiset(SkeletonCases(PublicItems(inv), AuthoredIds(authored)))
    requires Merged(authored + generated).Ok? && item in PublicItems(inv)
    ensures ExactlyOne(Merged(authored + generated).value.caseGroups, SkeletonId(item))
  {
    hide Merged, PublicItems, Gather, SkeletonId, Collect, StrictlySorted, Skeleton;
    var all := authored + generated;
    var cases := Merged(all).value.caseGroups;
    MergeConserves(all);
    GatherSame(all);
    GatherAppend(authored, generated, CasesOf);
    var wanted := AuthoredIds(authored);
    if SkeletonId(item) in wanted {
      var c :| c in Gather(authored, CasesOf) && c.id == SkeletonId(item);
      assert c in multiset(Gather(all, CasesOf));
      OneOf(cases, c);
    } else {
      var c := Skeleton(item);
      CollectMembers(PublicItems(inv), Needed(wanted), c);
      assert Needed(wanted)(item) == Some(c);
      assert c in multiset(SkeletonCases(PublicItems(inv), wanted));
      assert c in multiset(Gather(all, CasesOf));
      SkeletonHasId(item);
      OneOf(cases, c);
    }
  }

  lemma SkeletonHasId(item: Item)
    ensures Skeleton(item).id == SkeletonId(item)
  {}

  lemma {:induction false} GatherSame(fragments: seq<Fragment>)
    ensures Gather(fragments, (f: Fragment) => f.caseGroups) == Gather(fragments, CasesOf)
  {
    if fragments != [] {
      GatherSame(fragments[..|fragments| - 1]);
    }
  }

  lemma OneOf(cases: seq<Case>, c: Case)
    requires StrictlySorted(cases, CaseId) && c in multiset(cases)
    ensures ExactlyOne(cases, c.id)
  {
    hide LexLeq;
    var k :| 0 <= k < |cases| && cases[k] == c;
    forall j | 0 <= j < |cases| && cases[j].id == c.id ensures j == k {
      assert CaseId(cases[j]) == CaseId(cases[k]);
    }
  }

  /** `build`, from authored fragments to the merged contract. */
  method Build(inv: Inventory, behaviors: seq<Entry>, authored: seq<Fragment>, hash: string -> nat)
    returns (r: Result<Content, MergeError>, generated: seq<Fragment>)
    ensures r == Merged(authored + generated)
    ensures Emitted(generated, InventoryBuckets(inv),
                    key => Collect(PublicItems(inv), NeededIn(AuthoredIds(authored), hash, key)), behaviors)
    ensures r.Ok? ==> forall item :: item in PublicItems(inv) ==> ExactlyOne(r.value.caseGroups, SkeletonId(item))
  {
    hide PublicItems, SkeletonCases, Merged, ExactlyOne, SkeletonId, Emitted;
    generated := GeneratedFragments(inv, behaviors, AuthoredIds(authored), hash);
    r := MergeFragments(authored + generated);
    if r.Ok? {
      forall item | item in PublicItems(inv) ensures ExactlyOne(r.value.caseGroups, SkeletonId(item)) {
        EveryEntryOnce(inv, authored, generated, item);
      }
    }
  }

  // ----- What the generated fragments say -----

  /** The public entries: those of every command's options and positionals, of the configuration keys
      and of the support scripts that are public and apply, in order of their ids. */
  lemma PublicItemsMean(inv: Inventory, item: Item)
    ensures item in PublicItems(inv) <==>
              && item.entry.isPublic && !item.entry.applicability.NotApplicable?
              && match item
                 case OptionItem(e, name) => exists c :: c in inv.commands && c.name == name && e in c.options
                 case PositionalItem(e, name) => exists c :: c in inv.commands && c.name == name && e in c.positionals
                 case ConfigItem(e) => e in inv.configKeys
                 case SupportScriptItem(e) => e in inv.supportScripts
  {
    hide Collect, Sort, CommandItems;
    var configs := Collect(inv.configKeys, (e: InventoryEntry) => Some(ConfigItem(e)));
    var scripts := Collect(inv.supportScripts, (e: InventoryEntry) => Some(SupportScriptItem(e)));
    CollectMembers(InventoryItems(inv), IfPublic, item);
    SortMembers(CommandItems(inv.commands) + configs + scripts, ByKey(ItemId));
    CollectMembers(inv.configKeys, (e: InventoryEntry) => Some(ConfigItem(e)), item);
    CollectMembers(inv.supportScripts, (e: InventoryEntry) => Some(SupportScriptItem(e)), item);
    CommandItemsMean(inv.commands, item);
    assert item in CommandItems(inv.commands) + configs + scripts <==>
           item in CommandItems(inv.commands) || item in configs || item in scripts;
    if IfPublic(item).Some? { assert IfPublic(item) == Some(item); }
  }

  lemma {:induction false} CommandItemsMean(commands: seq<CommandEntry>, item: Item)
    ensures item in CommandItems(commands) <==>
              match item
              case OptionItem(e, name) => exists c :: c in commands && c.name == name && e in c.options
              case PositionalItem(e, name) => exists c :: c in commands && c.name == name && e in c.positionals
              case ConfigItem(_) => false
              case SupportScriptItem(_) => false
  {
    hide Collect;
    if commands != [] {
      var c := commands[0];
      CommandItemsMean(commands[1..], item);
      CollectMembers(c.options, OptionsOf(c.name), item);
      CollectMembers(c.positionals, PositionalsOf(c.name), item);
      assert forall x :: x in commands <==> x == c || x in commands[1..];
      if item.OptionItem? && item.command == c.name && item.entry in c.options {
        assert OptionsOf(c.name)(item.entry) == Some(item);
      }
      if item.PositionalItem? && item.command == c.name && item.entry in c.positionals {
        assert PositionalsOf(c.name)(item.entry) == Some(item);
      }
    }
  }

  /** By path, line and kind. */
  predicate PlaceBefore(a: Source, b: Source) {
    && LexLeq(a.path, b.path)
    && (a.path == b.path ==> a.line <= b.line)
    && (a.path == b.path && a.line == b.line ==> LexLeq(a.kind, b.kind))
  }

  lemma PlaceOrders()
    ensures IsOrder(PlaceOrder) && forall a, b :: PlaceOrder(a, b) <==> PlaceBefore(a, b)
  {
    hide LexLeq;
    forall a, b ensures PlaceOrder(a, b) <==> PlaceBefore(a, b) {
      LexTotal(a.path, b.path);
      LexTotal(a.kind, b.kind);
    }
    forall x, y ensures PlaceOrder(x, y) || PlaceOrder(y, x) {
      LexTotal(x.path, y.path);
      LexTotal(x.kind, y.kind);
    }
    forall x, y, z | PlaceOrder(x, y) && PlaceOrder(y, z) ensures PlaceOrder(x, z) {
      PlaceTransitive(x, y, z);
    }
  }

  lemma PlaceTransitive(a: Source, b: Source, c: Source)
    requires PlaceOrder(a, b) && PlaceOrder(b, c)
    ensures PlaceOrder(a, c)
  {
    hide LexLeq;
    LexTotal(a.path, b.path);
    LexTotal(b.path, c.path);
    LexTotal(a.path, c.path);
    if LexLeq(a.path, b.path) && LexLeq(b.path, c.path) { LexTransitive(a.path, b.path, c.path); }
    if LexLeq(a.kind, b.kind) && LexLeq(b.kind, c.kind) { LexTransitive(a.kind, b.kind, c.kind); }
  }

  /** The sources of an entry as upstream references, in their order. */
  function Upstream(sources: seq<Source>): (r: seq<Source>)
    ensures |r| == |sources|
    ensures forall i :: 0 <= i < |sources| ==>
              && r[i].repository == "lcov-v2.5" && r[i].path == sources[i].path && r[i].line == sources[i].line
              && r[i].kind == sources[i].kind && r[i].text == None
  {
    seq(|sources|, i requires 0 <= i < |sources| =>
      Source("lcov-v2.5", sources[i].path, sources[i].line, sources[i].kind, None))
  }

  lemma {:induction false} UpstreamCollected(sources: seq<Source>)
    ensures Collect(sources, UpstreamSource) == Upstream(sources)
  {
    if sources != [] {
      UpstreamCollected(sources[1..]);
      assert Upstream(sources) == [Upstream(sources)[0]] + Upstream(sources[1..]);
    }
  }

  /** A skeleton is an unreviewed acceptance case for its entry alone: the entry is its one primary
      target, its surface follows from the kind of entry, its sources are those of the entry, and it
      claims no plan and no evidence. */
  lemma SkeletonMeans(item: Item)
    ensures var c := Skeleton(item);
            && c.id == "case.acceptance." + item.entry.id && c.targets == [Target(item.entry.id, Primary)]
            && c.description == "Unreviewed acceptance skeleton for " + item.entry.id
                                + ("; observable semantics, "
                                   + "fixtures, and expected outcomes require manual adjudication.")
            && c.origin == GeneratedSkeleton && c.caseClass == Acceptance
            && c.reviewStatus == Unreviewed && c.evidenceStatus == NoEvidence
            && c.applicability == item.entry.applicability
            && c.surface == (match item
                             case OptionItem(_, _) => "cli"
                             case PositionalItem(_, _) => "cli"
                             case ConfigItem(_) => "config"
                             case SupportScriptItem(_) => "installation")
            && c.comparisonDimensions == ["exit", "filesystem", "stderr", "stdout"]
            && c.behaviorGroups == [] && c.upstreamTests == [] && c.suiteCases == [] && c.evidence == []
            && multiset(c.sources) == multiset(Upstream(item.entry.sources))
            && forall i, j :: 0 <= i < j < |c.sources| ==> PlaceBefore(c.sources[i], c.sources[j])
  {
    hide Sort, Collect, IsOrder, PlaceBefore, PlaceOrder;
    var found := Collect(item.entry.sources, UpstreamSource);
    UpstreamCollected(item.entry.sources);
    PlaceOrders();
    SortPermutes(found, PlaceOrder);
    SortSorts(found, PlaceOrder);
  }

  /** The domain of an entry: its command with dots turned into dashes, or the one domain of its kind;
      the bucket is the hash of its id modulo eight. */
  lemma BucketMeans(item: Item, hash: string -> nat)
    ensures BucketOf(item, hash) == (Domain(item), hash(item.entry.id) % 8)
    ensures item.ConfigItem? ==> Domain(item) == "config"
    ensures item.SupportScriptItem? ==> Domain(item) == "support-scripts"
    ensures item.OptionItem? || item.PositionalItem? ==>
              && |Domain(item)| == 8 + |item.command| && Domain(item)[..8] == "command-"
              && forall i :: 0 <= i < |item.command| ==>
                   Domain(item)[8 + i] == if item.command[i] == '.' then '-' else item.command[i]
  {
    if item.OptionItem? || item.PositionalItem? {
      assert Domain(item) == "command-" + Dashed(item.command);
    }
  }

  /** A generated fragment: its id names the domain and the bucket, and its only registry is that of
      the cases, in order of their ids; the other one imports the behaviour groups alone. */
  lemma FragmentsMean(key: Bucket, cases: seq<Case>, behaviors: seq<Entry>)
    requires key.1 < 8
    ensures var f := BucketFragment(key, cases);
            && f.id == "generated.inventory." + key.0 + "." + [('0' as int + key.1) as char]
            && f.subjects == [] && f.behaviorGroups == [] && f.interactionGroups == []
            && multiset(f.caseGroups) == multiset(cases)
            && forall i, j :: 0 <= i < j < |f.caseGroups| ==> LexLeq(f.caseGroups[i].id, f.caseGroups[j].id)
    ensures var f := BehaviorFragment(behaviors);
            && f.id == "generated.behavior-groups"
            && f.subjects == [] && f.interactionGroups == [] && f.caseGroups == []
            && multiset(f.behaviorGroups) == multiset(behaviors)
            && forall i, j :: 0 <= i < j < |f.behaviorGroups| ==> LexLeq(f.behaviorGroups[i].id, f.behaviorGroups[j].id)
  {
    hide Sort, IsOrder, LexLeq;
    ByKeyIsOrder(CaseId);
    ByKeyIsOrder(EntryId);
    SortPermutes(cases, ByKey(CaseId));
    SortPermutes(behaviors, ByKey(EntryId));
    SortSorts(cases, ByKey(CaseId));
    SortSorts(behaviors, ByKey(EntryId));
    var f, g := BucketFragment(key, cases), BehaviorFragment(behaviors);
    forall i, j | 0 <= i < j < |f.caseGroups| ensures LexLeq(f.caseGroups[i].id, f.caseGroups[j].id) {
      assert ByKey(CaseId)(f.caseGroups[i], f.caseGroups[j]);
      assert CaseId(f.caseGroups[i]) == f.caseGroups[i].id && CaseId(f.caseGroups[j]) == f.caseGroups[j].id;
    }
    forall i, j | 0 <= i < j < |g.behaviorGroups| ensures LexLeq(g.behaviorGroups[i].id, g.behaviorGroups[j].id) {
      assert ByKey(EntryId)(g.behaviorGroups[i], g.behaviorGroups[j]);
      assert EntryId(g.behaviorGroups[i]) == g.behaviorGroups[i].id
             && EntryId(g.behaviorGroups[j]) == g.behaviorGroups[j].id;
    }
  }

  /** A bucket gets the skeletons of exactly those public entries of its domain and hash that no
      authored case covers. */
  lemma BucketHolds(inv: Inventory, authored: set<string>, hash: string -> nat, key: Bucket, c: Case)
    ensures c in Collect(PublicItems(inv), NeededIn(authored, hash, key)) <==>
              exists item :: item in PublicItems(inv) && c == Skeleton(item) && SkeletonId(item) !in authored
                             && Domain(item) == key.0 && hash(item.entry.id) % 8 == key.1
  {
    hide PublicItems, Skeleton, Domain, SkeletonId;
    CollectMembers(PublicItems(inv), NeededIn(authored, hash, key), c);
    if c in Collect(PublicItems(inv), NeededIn(authored, hash, key)) {
      var item :| item in PublicItems(inv) && NeededIn(authored, hash, key)(item) == Some(c);
    }
    if exists item :: item in PublicItems(inv) && c == Skeleton(item) && SkeletonId(item) !in authored
                      && Domain(item) == key.0 && hash(item.entry.id) % 8 == key.1
    {
      var item :| item in PublicItems(inv) && c == Skeleton(item) && SkeletonId(item) !in authored
                  && Domain(item) == key.0 && hash(item.entry.id) % 8 == key.1;
      assert NeededIn(authored, hash, key)(item) == Some(c);
    }
  }

  /** There is a bucket for each of the eight numbers in every domain: of the commands, of the
      configuration and of the support scripts; they come in order of domain and number. */
  lemma BucketsMean(inv: Inventory)
    ensures forall k: Bucket :: k in InventoryBuckets(inv) <==>
              k.1 < 8 && (k.0 == "config" || k.0 == "support-scripts" || IsCommandDomain(inv, k.0))
    ensures InBucketOrder(InventoryBuckets(inv))
  {
    hide Sort, BucketKeys, LexLeq, Collect, CommandDomain, SortedBy;
    InventoryBucketsFacts(inv);
    forall d ensures d in Domains(inv) <==>
                       d == "config" || d == "support-scripts" || IsCommandDomain(inv, d)
    {
      DomainIff(inv, d);
    }
    var domains := Sort(Unique(Domains(inv)), LexLeq);
    LexIsOrder();
    SortSorts(Unique(Domains(inv)), LexLeq);
    UniqueFacts(Domains(inv));
    SortKeepsDistinct(Unique(Domains(inv)));
    BucketKeysInOrder(domains);
    assert InventoryBuckets(inv) == BucketKeys(domains);
  }

  /** By domain, and by number within a domain; no bucket comes twice. */
  predicate InBucketOrder(keys: seq<Bucket>) {
    forall i, j :: 0 <= i < j < |keys| ==>
      LexLeq(keys[i].0, keys[j].0) && (keys[i].0 == keys[j].0 ==> keys[i].1 < keys[j].1)
  }

  predicate IsCommandDomain(inv: Inventory, d: string) {
    exists c :: c in inv.commands && d == CommandDomain(c.name)
  }

  lemma DomainIff(inv: Inventory, d: string)
    ensures d in Domains(inv) <==>
              d == "config" || d == "support-scripts" || IsCommandDomain(inv, d)
  {
    hide Collect, CommandDomain;
    CollectMembers(inv.commands, DomainOf, d);
    var fixed := ["config", "support-scripts"];
    assert fixed[0] in fixed && fixed[1] in fixed;
    assert d in Domains(inv) <==> d in Collect(inv.commands, DomainOf) || d in fixed;
    if c :| c in inv.commands && d == CommandDomain(c.name) {
      assert DomainOf(c) == Some(d);
    }
  }

  lemma {:induction false} BucketKeysInOrder(domains: seq<string>)
    requires SortedBy(domains, LexLeq) && Distinct(domains)
    ensures InBucketOrder(BucketKeys(domains))
  {
    hide LexLeq;
    if domains != [] {
      var n := |domains| - 1;
      var init, last := domains[..n], domains[n];
      BucketKeysInOrder(init);
      BucketKeysFacts(init);
      LexTotal(last, last);
      var a, b := BucketKeys(init), BucketsOf(last, BUCKETS);
      var all: seq<Bucket> := a + b;
      forall i, j | 0 <= i < j < |all|
        ensures LexLeq(all[i].0, all[j].0) && (all[i].0 == all[j].0 ==> all[i].1 < all[j].1)
      {
        if j < |a| {
          assert all[i] == a[i] && all[j] == a[j];
          assert LexLeq(a[i].0, a[j].0) && (a[i].0 == a[j].0 ==> a[i].1 < a[j].1);
        } else if i < |a| {
          assert all[i] in a && all[j] == b[j - |a|] == (last, j - |a|);
          var k :| 0 <= k < |init| && init[k] == all[i].0;
          assert domains[k] == all[i].0 && domains[n] == last && LexLeq(domains[k], domains[n]);
        } else {
          assert all[i] == b[i - |a|] == (last, i - |a|) && all[j] == b[j - |a|] == (last, j - |a|);
          assert LexLeq(last, last);
        }
      }
    }
  }
}
