/** Merging behaviour fragments into one contract. */
module Merge {
  import opened Wrappers
  import opened Ordering
  import opened Sequences
  import opened Contract

  datatype Fragment = Fragment(
    id: string,
    subjects: seq<Entry>,
    behaviorGroups: seq<Entry>,
    interactionGroups: seq<Group>,
    caseGroups: seq<Case>)

  /** The four registries of a merged contract. */
  datatype Content = Content(
    subjects: seq<Entry>,
    behaviorGroups: seq<Entry>,
    interactionGroups: seq<Group>,
    caseGroups: seq<Case>)

  datatype Field = Subjects | BehaviorGroups | InteractionGroups | CaseGroups

  datatype MergeError = FragmentIdsNotUnique | FieldIdsNotUnique(field: Field) | RegistryIdsNotUnique

  // ----- Identifiers -----

  function Ids<T>(xs: seq<T>, id: T -> string): seq<string> {
    seq(|xs|, i requires 0 <= i < |xs| => id(xs[i]))
  }

  /** `len(ids) == len(set(ids))`. */
  predicate AllDifferent(ids: seq<string>) {
    |ids| == |set x | x in ids|
  }

  lemma IdsSnoc<T>(xs: seq<T>, k: nat, id: T -> string)
    requires k < |xs|
    ensures Ids(xs[..k + 1], id) == Ids(xs[..k], id) + [id(xs[k])]
  {}

  function FragmentId(f: Fragment): string { f.id }
  function EntryId(e: Entry): string { e.id }
  function GroupId(g: Group): string { g.id }
  function CaseId(c: Case): string { c.id }

  // ----- The merge as a function -----

  /** The items of one field over all fragments, in fragment order. */
  function Gather<T>(fragments: seq<Fragment>, field: Fragment -> seq<T>): seq<T> {
    if fragments == [] then []
    else Gather(fragments[..|fragments| - 1], field) + field(fragments[|fragments| - 1])
  }

  function SortedFragments(fragments: seq<Fragment>): seq<Fragment> {
    Sort(fragments, ByKey(FragmentId))
  }

  function Gathered(fragments: seq<Fragment>): Content {
    Content(Gather(fragments, (f: Fragment) => f.subjects), Gather(fragments, (f: Fragment) => f.behaviorGroups),
            Gather(fragments, (f: Fragment) => f.interactionGroups), Gather(fragments, (f: Fragment) => f.caseGroups))
  }

  function SortedContent(c: Content): Content {
    Content(Sort(c.subjects, ByKey(EntryId)), Sort(c.behaviorGroups, ByKey(EntryId)),
            Sort(c.interactionGroups, ByKey(GroupId)), Sort(c.caseGroups, ByKey(CaseId)))
  }

  function RegistryIds(c: Content): seq<string> {
    Ids(c.subjects, EntryId) + Ids(c.behaviorGroups, EntryId)
    + Ids(c.interactionGroups, GroupId) + Ids(c.caseGroups, CaseId)
  }

  /** The first field, in the order they are checked, whose ids repeat. */
  function RepeatedField(c: Content): Option<Field> {
    if !AllDifferent(Ids(c.subjects, EntryId)) then Some(Subjects)
    else if !AllDifferent(Ids(c.behaviorGroups, EntryId)) then Some(BehaviorGroups)
    else if !AllDifferent(Ids(c.interactionGroups, GroupId)) then Some(InteractionGroups)
    else if !AllDifferent(Ids(c.caseGroups, CaseId)) then Some(CaseGroups)
    else None
  }

  function Merged(fragments: seq<Fragment>): Result<Content, MergeError> {
    var ordered := SortedFragments(fragments);
    var content := SortedContent(Gathered(ordered));
    if !AllDifferent(Ids(ordered, FragmentId)) then Err(FragmentIdsNotUnique)
    else if RepeatedField(content).Some? then Err(FieldIdsNotUnique(RepeatedField(content).value))
    else if !AllDifferent(RegistryIds(content)) then Err(RegistryIdsNotUnique)
    else Ok(content)
  }

  /** `merge_fragments`: content lists extended fragment by fragment, then sorted in place. */
  method MergeFragments(fragments: seq<Fragment>) returns (r: Result<Content, MergeError>)
    ensures r == Merged(fragments)
  {
    hide Sort, ByKey, AllDifferent;
    var ordered := SortedFragments(fragments);
    var subjects: seq<Entry>, behaviors: seq<Entry>, groups: seq<Group>, cases: seq<Case> := [], [], [], [];
    var fragmentIds: seq<string> := [];
    for k := 0 to |ordered|
      invariant Content(subjects, behaviors, groups, cases) == Gathered(ordered[..k])
      invariant fragmentIds == Ids(ordered[..k], FragmentId)
    {
      assert ordered[..k + 1][..k] == ordered[..k];
      IdsSnoc(ordered, k, FragmentId);
      fragmentIds := fragmentIds + [ordered[k].id];
      subjects := subjects + ordered[k].subjects;
      behaviors := behaviors + ordered[k].behaviorGroups;
      groups := groups + ordered[k].interactionGroups;
      cases := cases + ordered[k].caseGroups;
    }
    assert ordered[..|ordered|] == ordered;
    if !AllDifferent(fragmentIds) { return Err(FragmentIdsNotUnique); }
    subjects := Sort(subjects, ByKey(EntryId));
    if !AllDifferent(Ids(subjects, EntryId)) { return Err(FieldIdsNotUnique(Subjects)); }
    behaviors := Sort(behaviors, ByKey(EntryId));
    if !AllDifferent(Ids(behaviors, EntryId)) { return Err(FieldIdsNotUnique(BehaviorGroups)); }
    groups := Sort(groups, ByKey(GroupId));
    if !AllDifferent(Ids(groups, GroupId)) { return Err(FieldIdsNotUnique(InteractionGroups)); }
    cases := Sort(cases, ByKey(CaseId));
    if !AllDifferent(Ids(cases, CaseId)) { return Err(FieldIdsNotUnique(CaseGroups)); }
    var content := Content(subjects, behaviors, groups, cases);
    if !AllDifferent(RegistryIds(content)) { return Err(RegistryIdsNotUnique); }
    return Ok(content);
  }

  // ----- Independence of fragment order -----

  lemma DistinctSeparates<T(!new)>(xs: seq<T>, id: T -> string)
    requires AllDifferent(Ids(xs, id))
    ensures Separates(ByKey(id), xs)
  {
    DistinctSize(Ids(xs, id));
    forall x, y | x in xs && y in xs && ByKey(id)(x, y) && ByKey(id)(y, x) ensures x == y {
      LexTotal(id(x), id(y));
      var i :| 0 <= i < |xs| && xs[i] == x;
      var j :| 0 <= j < |xs| && xs[j] == y;
      assert Ids(xs, id)[i] == Ids(xs, id)[j];
    }
  }

  lemma {:induction false} IdsPermute<T>(xs: seq<T>, ys: seq<T>, id: T -> string)
    requires multiset(xs) == multiset(ys)
    ensures multiset(Ids(xs, id)) == multiset(Ids(ys, id))
  {
    if xs == [] {
      assert |multiset(ys)| == 0;
    } else {
      var left, right := TakeOut(xs, ys);
      IdsPermute(xs[1..], left + right, id);
      assert Ids(xs, id) == [id(xs[0])] + Ids(xs[1..], id);
      assert Ids(ys, id) == Ids(left, id) + [id(xs[0])] + Ids(right, id);
      assert Ids(left + right, id) == Ids(left, id) + Ids(right, id);
    }
  }

  /** Distinctness of identifiers survives rearranging. */
  lemma DifferentPermutes<T>(xs: seq<T>, ys: seq<T>, id: T -> string)
    requires multiset(xs) == multiset(ys)
    ensures AllDifferent(Ids(xs, id)) <==> AllDifferent(Ids(ys, id))
  {
    hide Ids, Distinct;
    IdsPermute(xs, ys, id);
    DistinctPermutes(Ids(xs, id), Ids(ys, id));
    DistinctSize(Ids(xs, id));
    DistinctSize(Ids(ys, id));
  }

  /** Every ordering of the fragments gives the same contract, or the same rejection. */
  lemma MergeOrderIrrelevant(fragments: seq<Fragment>, reordered: seq<Fragment>)
    requires multiset(fragments) == multiset(reordered)
    ensures Merged(fragments) == Merged(reordered)
  {
    hide Sort, ByKey, AllDifferent, RepeatedField, RegistryIds, SortedContent, Gathered, IsOrder;
    var a, b := SortedFragments(fragments), SortedFragments(reordered);
    SortPermutes(fragments, ByKey(FragmentId));
    SortPermutes(reordered, ByKey(FragmentId));
    DifferentPermutes(fragments, a, FragmentId);
    DifferentPermutes(reordered, b, FragmentId);
    DifferentPermutes(fragments, reordered, FragmentId);
    if AllDifferent(Ids(a, FragmentId)) {
      DistinctSeparates(fragments, FragmentId);
      ByKeyIsOrder(FragmentId);
      SortCanonical(fragments, reordered, ByKey(FragmentId));
    }
  }

  // ----- What an accepted merge holds -----

  ghost predicate StrictlySorted<T>(xs: seq<T>, id: T -> string) {
    forall i, j :: 0 <= i < j < |xs| ==> LexLeq(id(xs[i]), id(xs[j])) && id(xs[i]) != id(xs[j])
  }

  lemma SortedDistinctIsStrict<T(!new)>(xs: seq<T>, id: T -> string)
    requires AllDifferent(Ids(Sort(xs, ByKey(id)), id))
    ensures StrictlySorted(Sort(xs, ByKey(id)), id)
  {
    hide Sort, LexLeq, IsOrder;
    var ys := Sort(xs, ByKey(id));
    ByKeyIsOrder(id);
    SortSorts(xs, ByKey(id));
    DistinctSize(Ids(ys, id));
    forall i, j | 0 <= i < j < |ys| ensures LexLeq(id(ys[i]), id(ys[j])) && id(ys[i]) != id(ys[j]) {
      assert ByKey(id)(ys[i], ys[j]);
      assert Ids(ys, id)[i] != Ids(ys, id)[j];
    }
  }

  lemma {:induction false} GatherAppend<T>(a: seq<Fragment>, b: seq<Fragment>, field: Fragment -> seq<T>)
    ensures Gather(a + b, field) == Gather(a, field) + Gather(b, field)
  {
    if b == [] {
      assert a + b == a;
    } else {
      var init, last := b[..|b| - 1], b[|b| - 1];
      assert (a + b)[..|a + b| - 1] == a + init;
      GatherAppend(a, init, field);
    }
  }

  lemma GatherOne<T>(f: Fragment, field: Fragment -> seq<T>)
    ensures Gather([f], field) == field(f)
  {
    assert [f][..0] == [];
  }

  /** Rearranging fragments rearranges their items. */
  lemma {:induction false} GatherPermutes<T>(a: seq<Fragment>, b: seq<Fragment>, field: Fragment -> seq<T>)
    requires multiset(a) == multiset(b)
    ensures multiset(Gather(a, field)) == multiset(Gather(b, field))
  {
    if a == [] {
      assert |multiset(b)| == 0;
    } else {
      var left, right := TakeOut(a, b);
      GatherPermutes(a[1..], left + right, field);
      GatherAppend(left, right, field);
      GatherAppend(left + [a[0]], right, field);
      GatherAppend(left, [a[0]], field);
      assert a == [a[0]] + a[1..];
      GatherAppend([a[0]], a[1..], field);
    }
  }

  lemma FieldConserved<T(!new)>(fragments: seq<Fragment>, field: Fragment -> seq<T>, id: T -> string)
    requires AllDifferent(Ids(Sort(Gather(SortedFragments(fragments), field), ByKey(id)), id))
    ensures var xs := Sort(Gather(SortedFragments(fragments), field), ByKey(id));
            multiset(xs) == multiset(Gather(fragments, field)) && StrictlySorted(xs, id)
  {
    hide Sort, AllDifferent, StrictlySorted, Gather;
    var gathered := Gather(SortedFragments(fragments), field);
    SortPermutes(gathered, ByKey(id));
    SortPermutes(fragments, ByKey(FragmentId));
    GatherPermutes(SortedFragments(fragments), fragments, field);
    SortedDistinctIsStrict(gathered, id);
  }

  /** An accepted merge holds exactly the fragments' items, each registry strictly sorted by id. */
  lemma MergeConserves(fragments: seq<Fragment>)
    requires Merged(fragments).Ok?
    ensures var c, all := Merged(fragments).value, Gathered(fragments);
            && multiset(c.subjects) == multiset(all.subjects) && StrictlySorted(c.subjects, EntryId)
            && multiset(c.behaviorGroups) == multiset(all.behaviorGroups) && StrictlySorted(c.behaviorGroups, EntryId)
            && multiset(c.interactionGroups) == multiset(all.interactionGroups)
            && StrictlySorted(c.interactionGroups, GroupId)
            && multiset(c.caseGroups) == multiset(all.caseGroups) && StrictlySorted(c.caseGroups, CaseId)
            && Distinct(RegistryIds(c))
  {
    hide Sort, StrictlySorted, Gather, Distinct, RegistryIds, SortedFragments;
    FieldConserved(fragments, (f: Fragment) => f.subjects, EntryId);
    FieldConserved(fragments, (f: Fragment) => f.behaviorGroups, EntryId);
    FieldConserved(fragments, (f: Fragment) => f.interactionGroups, GroupId);
    FieldConserved(fragments, (f: Fragment) => f.caseGroups, CaseId);
    DistinctSize(RegistryIds(Merged(fragments).value));
  }

  // ----- Which outcome -----

  ghost predicate DistinctIds<T>(xs: seq<T>, id: T -> string) {
    forall i, j :: 0 <= i < j < |xs| ==> id(xs[i]) != id(xs[j])
  }

  lemma DifferentIsDistinct<T>(xs: seq<T>, id: T -> string)
    ensures AllDifferent(Ids(xs, id)) <==> DistinctIds(xs, id)
  {
    DistinctSize(Ids(xs, id));
    if Distinct(Ids(xs, id)) {
      forall i, j | 0 <= i < j < |xs| ensures id(xs[i]) != id(xs[j]) {
        assert Ids(xs, id)[i] != Ids(xs, id)[j];
      }
    }
  }

  /** Distinctness of a sorted registry is that of the items in the fragments. */
  lemma RegistryDifferent<T(!new)>(fragments: seq<Fragment>, field: Fragment -> seq<T>, id: T -> string)
    ensures AllDifferent(Ids(Sort(Gather(SortedFragments(fragments), field), ByKey(id)), id)) <==>
            DistinctIds(Gather(fragments, field), id)
  {
    hide Sort, AllDifferent, Gather, DistinctIds;
    var gathered := Gather(SortedFragments(fragments), field);
    SortPermutes(gathered, ByKey(id));
    SortPermutes(fragments, ByKey(FragmentId));
    GatherPermutes(SortedFragments(fragments), fragments, field);
    DifferentPermutes(Sort(gathered, ByKey(id)), Gather(fragments, field), id);
    DifferentIsDistinct(Gather(fragments, field), id);
  }

  /** The checks in their order: ids of fragments, of subjects, behaviour groups, interaction groups
      and cases, and then over all four; each is the reported one exactly when it is the first to
      fail. */
  lemma MergedOutcome(fragments: seq<Fragment>)
    ensures var r, unique := Merged(fragments), DistinctIds(fragments, (f: Fragment) => f.id);
            var subjects := DistinctIds(Gather(fragments, (f: Fragment) => f.subjects), (e: Entry) => e.id);
            var behaviors := DistinctIds(Gather(fragments, (f: Fragment) => f.behaviorGroups), (e: Entry) => e.id);
            var groups := DistinctIds(Gather(fragments, (f: Fragment) => f.interactionGroups), (g: Group) => g.id);
            var cases := DistinctIds(Gather(fragments, (f: Fragment) => f.caseGroups), (c: Case) => c.id);
            && (r == Err(FragmentIdsNotUnique) <==> !unique)
            && (r == Err(FieldIdsNotUnique(Subjects)) <==> unique && !subjects)
            && (r == Err(FieldIdsNotUnique(BehaviorGroups)) <==> unique && subjects && !behaviors)
            && (r == Err(FieldIdsNotUnique(InteractionGroups)) <==> unique && subjects && behaviors && !groups)
            && (r == Err(FieldIdsNotUnique(CaseGroups)) <==> unique && subjects && behaviors && groups && !cases)
            && (unique && subjects && behaviors && groups && cases <==> r.Ok? || r == Err(RegistryIdsNotUnique))
  {
    hide Sort, AllDifferent, Gather, DistinctIds, RegistryIds, Ids, SortedFragments;
    SameKeys(fragments);
    SortPermutes(fragments, ByKey(FragmentId));
    SortedFragmentsAre(fragments);
    DifferentPermutes(SortedFragments(fragments), fragments, FragmentId);
    DifferentIsDistinct(fragments, FragmentId);
    RegistryDifferent(fragments, (f: Fragment) => f.subjects, EntryId);
    RegistryDifferent(fragments, (f: Fragment) => f.behaviorGroups, EntryId);
    RegistryDifferent(fragments, (f: Fragment) => f.interactionGroups, GroupId);
    RegistryDifferent(fragments, (f: Fragment) => f.caseGroups, CaseId);
  }

  lemma SortedFragmentsAre(fragments: seq<Fragment>)
    ensures SortedFragments(fragments) == Sort(fragments, ByKey(FragmentId))
  {}

  lemma SameKeys(fragments: seq<Fragment>)
    ensures DistinctIds(fragments, FragmentId) <==> DistinctIds(fragments, (f: Fragment) => f.id)
    ensures forall xs :: DistinctIds(xs, EntryId) <==> DistinctIds(xs, (e: Entry) => e.id)
    ensures forall xs :: DistinctIds(xs, GroupId) <==> DistinctIds(xs, (g: Group) => g.id)
    ensures forall xs :: DistinctIds(xs, CaseId) <==> DistinctIds(xs, (c: Case) => c.id)
  {}

  /** The registries of an accepted contract hold, each, exactly what the fragments hold there. */
  lemma RegistriesHold(fragments: seq<Fragment>)
    requires Merged(fragments).Ok?
    ensures var c := Merged(fragments).value;
            && multiset(c.subjects) == multiset(Gather(fragments, (f: Fragment) => f.subjects))
            && multiset(c.behaviorGroups) == multiset(Gather(fragments, (f: Fragment) => f.behaviorGroups))
            && multiset(c.interactionGroups) == multiset(Gather(fragments, (f: Fragment) => f.interactionGroups))
            && multiset(c.caseGroups) == multiset(Gather(fragments, (f: Fragment) => f.caseGroups))
            && DistinctIds(c.subjects + c.behaviorGroups, (e: Entry) => e.id)
            && (forall s :: s in c.subjects + c.behaviorGroups ==>
                  && (forall g :: g in c.interactionGroups ==> s.id != g.id)
                  && forall k :: k in c.caseGroups ==> s.id != k.id)
            && (forall g, k :: g in c.interactionGroups && k in c.caseGroups ==> g.id != k.id)
  {
    hide Sort, StrictlySorted, Gather, SortedFragments, RegistryIds;
    FieldConserved(fragments, (f: Fragment) => f.subjects, EntryId);
    FieldConserved(fragments, (f: Fragment) => f.behaviorGroups, EntryId);
    FieldConserved(fragments, (f: Fragment) => f.interactionGroups, GroupId);
    FieldConserved(fragments, (f: Fragment) => f.caseGroups, CaseId);
    DistinctSize(RegistryIds(Merged(fragments).value));
    Apart(Merged(fragments).value);
  }

  lemma IdsAre<T>(xs: seq<T>, id: T -> string)
    ensures |Ids(xs, id)| == |xs| && forall i :: 0 <= i < |xs| ==> Ids(xs, id)[i] == id(xs[i])
  {}

  lemma Apart(c: Content)
    requires Distinct(RegistryIds(c))
    ensures DistinctIds(c.subjects + c.behaviorGroups, (e: Entry) => e.id)
    ensures forall s :: s in c.subjects + c.behaviorGroups ==>
              (forall g :: g in c.interactionGroups ==> s.id != g.id) && forall k :: k in c.caseGroups ==> s.id != k.id
    ensures forall g, k :: g in c.interactionGroups && k in c.caseGroups ==> g.id != k.id
  {
    hide Ids;
    var all, entries := RegistryIds(c), c.subjects + c.behaviorGroups;
    var n, m := |entries|, |entries| + |c.interactionGroups|;
    IdsAre(c.subjects, EntryId);
    IdsAre(c.behaviorGroups, EntryId);
    IdsAre(c.interactionGroups, GroupId);
    IdsAre(c.caseGroups, CaseId);
    forall i | 0 <= i < n ensures all[i] == entries[i].id {
      assert all[i] == EntryId(entries[i]);
    }
    forall i | 0 <= i < |c.interactionGroups| ensures all[n + i] == c.interactionGroups[i].id {
      assert all[n + i] == GroupId(c.interactionGroups[i]);
    }
    forall i | 0 <= i < |c.caseGroups| ensures all[m + i] == c.caseGroups[i].id {
      assert all[m + i] == CaseId(c.caseGroups[i]);
    }
    forall i, j | 0 <= i < j < n ensures entries[i].id != entries[j].id {
      assert all[i] != all[j];
    }
    forall i, j | 0 <= i < n && 0 <= j < |c.interactionGroups| ensures entries[i].id != c.interactionGroups[j].id {
      assert all[i] != all[n + j];
    }
    forall i, j | 0 <= i < n && 0 <= j < |c.caseGroups| ensures entries[i].id != c.caseGroups[j].id {
      assert all[i] != all[m + j];
    }
    forall i, j | 0 <= i < |c.interactionGroups| && 0 <= j < |c.caseGroups|
      ensures c.interactionGroups[i].id != c.caseGroups[j].id
    {
      assert all[n + i] != all[m + j];
    }
  }
}
