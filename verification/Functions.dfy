/**
 The function coverage table: groups of aliases by start line with a reverse index from alias to
 start, kept coherent by every operation, and the ordered union, intersection and difference of
 two tables.
 */
module Functions {
  import opened Wrappers
  import opened Text
  import opened Ordering
  import opened Counters
  import opened Ends

  type Name = string

  /** A line key, compared by its retained lexeme. */
  type Line = string

  // ----- Representatives -----

  predicate Contains(haystack: string, needle: string) {
    exists i :: 0 <= i <= |haystack| && OccursAt(haystack, needle, i)
  }

  predicate IsLambda(alias: Name) {
    Contains(alias, "{lambda(") || Contains(alias, ".lambda$")
  }

  /** Lambda names count as a thousand characters longer. */
  function EffectiveLength(alias: Name): nat {
    |alias| + if IsLambda(alias) then 1000 else 0
  }

  /** Shorter first, then in byte order. */
  predicate Prefers(a: Name, b: Name) {
    || EffectiveLength(a) < EffectiveLength(b)
    || (EffectiveLength(a) == EffectiveLength(b) && a != b && LexLeq(a, b))
  }

  /** `r` is preferred to every other name. */
  ghost predicate Best(names: set<Name>, r: Name) {
    r in names && forall n :: n in names && n != r ==> Prefers(r, n)
  }

  lemma PrefersTotal(a: Name, b: Name)
    ensures a == b || Prefers(a, b) || Prefers(b, a)
    ensures !(Prefers(a, b) && Prefers(b, a))
  {
    hide EffectiveLength;
    LexTotal(a, b);
  }

  lemma PrefersTransitive(a: Name, b: Name, c: Name)
    requires Prefers(a, b) && Prefers(b, c)
    ensures Prefers(a, c)
  {
    hide EffectiveLength;
    if LexLeq(a, b) && LexLeq(b, c) {
      LexTransitive(a, b, c);
    }
    LexTotal(a, b);
  }

  /** The best name is unique, so a representative depends only on the set of names. */
  lemma BestUnique(names: set<Name>, r: Name, q: Name)
    requires Best(names, r) && Best(names, q)
    ensures r == q
  {
    hide Prefers;
    PrefersTotal(r, q);
  }

  lemma {:induction false} BestExists(names: set<Name>)
    requires names != {}
    ensures exists r :: Best(names, r)
    decreases |names|
  {
    hide Prefers;
    var n :| n in names;
    var rest := names - {n};
    if rest == {} {
      assert forall m :: m in names && m != n ==> m in rest;
      assert Best(names, n);
    } else {
      BestExists(rest);
      var r :| Best(rest, r);
      RefreshedBest(rest, r, n);
      assert rest + {n} == names;
    }
  }

  ghost function BestName(names: set<Name>): (r: Name)
    requires names != {}
    ensures Best(names, r)
  {
    BestExists(names);
    var r :| Best(names, r);
    r
  }

  /** `refresh_representative_on_insert`. */
  function Refreshed(representative: Name, alias: Name): Name {
    if Prefers(alias, representative) then alias else representative
  }

  lemma RefreshedBest(names: set<Name>, r: Name, alias: Name)
    requires Best(names, r)
    ensures Best(names + {alias}, Refreshed(r, alias))
  {
    hide Prefers;
    PrefersTotal(r, alias);
    if Prefers(alias, r) {
      forall n | n in names && n != r ensures Prefers(alias, n) {
        PrefersTransitive(alias, r, n);
      }
    }
  }

  /** `recompute_representative_after_removal`: a scan over the surviving aliases. */
  method BestOf(names: set<Name>) returns (best: Name)
    requires names != {}
    ensures Best(names, best)
  {
    hide Prefers;
    best :| best in names;
    var rest := names - {best};
    ghost var seen := {best};
    while rest != {}
      invariant Best(seen, best) && seen + rest == names
      decreases rest
    {
      var alias :| alias in rest;
      RefreshedBest(seen, best, alias);
      best := Refreshed(best, alias);
      seen := seen + {alias};
      rest := rest - {alias};
    }
    assert seen == names;
  }

  // ----- Groups -----

  type Aliases = map<Name, Count>

  datatype Group = Group(start: Line, end: Option<Line>, aliases: Aliases, representative: Name)

  type Groups = map<Line, Group>

  ghost predicate GroupValid(g: Group) {
    Best(g.aliases.Keys, g.representative)
  }

  /** The one valid group with these lines and aliases. */
  ghost function GroupOf(start: Line, end: Option<Line>, aliases: Aliases): (g: Group)
    requires aliases != map[]
    ensures GroupValid(g)
  {
    Group(start, end, aliases, BestName(aliases.Keys))
  }

  lemma ValidGroupIs(g: Group)
    requires GroupValid(g)
    ensures g.aliases != map[] && g == GroupOf(g.start, g.end, g.aliases)
  {
    hide Prefers;
    BestUnique(g.aliases.Keys, g.representative, BestName(g.aliases.Keys));
  }

  type Index = map<Name, Line>

  function AliasesAt(groups: Groups, start: Line): Aliases {
    if start in groups then groups[start].aliases else map[]
  }

  ghost predicate GroupsValid(groups: Groups) {
    forall s :: s in groups ==> groups[s].start == s && GroupValid(groups[s])
  }

  /** The reverse index holds every alias, at the start of its group, and nothing else. */
  ghost predicate Indexed(groups: Groups, index: Index) {
    && (forall a :: a in index ==> index[a] in groups && a in groups[index[a]].aliases)
    && (forall s, a :: s in groups && a in groups[s].aliases ==> a in index && index[a] == s)
  }

  ghost predicate Coherent(groups: Groups, index: Index) {
    GroupsValid(groups) && Indexed(groups, index)
  }

  // How coherence survives each change of the two maps.

  /** One alias more, or the same ones, at a start. */
  lemma GroupGrows(groups: Groups, index: Index, g: Group, alias: Name)
    requires Coherent(groups, index) && GroupValid(g)
    requires g.aliases.Keys == (if g.start in groups then groups[g.start].aliases.Keys else {}) + {alias}
    requires alias in index ==> index[alias] == g.start
    ensures Coherent(groups[g.start := g], index[alias := g.start])
  {
    hide Best;
  }

  lemma GroupGoes(groups: Groups, index: Index, start: Line)
    requires Coherent(groups, index) && start in groups
    ensures Coherent(groups - {start}, index - groups[start].aliases.Keys)
  {
    hide Best;
  }

  lemma GroupShrinks(groups: Groups, index: Index, g: Group, alias: Name)
    requires Coherent(groups, index) && GroupValid(g) && g.start in groups
    requires alias in groups[g.start].aliases && g.aliases.Keys == groups[g.start].aliases.Keys - {alias}
    ensures Coherent(groups[g.start := g], index - {alias})
  {
    hide Best;
    assert index[alias] == g.start;
    assert forall a :: a in g.aliases <==> a in groups[g.start].aliases && a != alias;
  }

  lemma GroupComes(groups: Groups, index: Index, g: Group)
    requires Coherent(groups, index) && GroupValid(g) && g.start !in groups && g.aliases.Keys !! index.Keys
    ensures Coherent(groups[g.start := g], index + map a | a in g.aliases.Keys :: g.start)
  {
    hide Best;
  }

  /** An alias lives at its indexed start and nowhere else. */
  lemma AliasHome(groups: Groups, index: Index, start: Line, alias: Name)
    requires Coherent(groups, index) && start in groups
    ensures alias in groups[start].aliases <==> alias in index && index[alias] == start
    ensures groups[start].start == start && GroupValid(groups[start])
  {
    hide Best;
  }

  lemma IndexedHome(groups: Groups, index: Index, alias: Name)
    requires Coherent(groups, index) && alias in index
    ensures index[alias] in groups && alias in groups[index[alias]].aliases
  {}

  // ----- Adding counts -----

  /** `add_alias` can fail only on the count. */
  predicate Addable(aliases: Aliases, alias: Name, count: Count) {
    alias in aliases ==> Plus(aliases[alias], count).Some?
  }

  function Added(aliases: Aliases, alias: Name, count: Count): Aliases
    requires Addable(aliases, alias, count)
  {
    aliases[alias := if alias in aliases then Plus(aliases[alias], count).value else count]
  }

  /** `add_alias`. */
  method AddAlias(g: Group, alias: Name, count: Count) returns (r: Option<Group>)
    requires GroupValid(g)
    ensures r.Some? <==> Addable(g.aliases, alias, count)
    ensures r.Some? ==>
              && r.value.start == g.start && r.value.end == g.end
              && r.value.aliases == Added(g.aliases, alias, count) && GroupValid(r.value)
  {
    hide Plus, Prefers;
    if alias in g.aliases {
      var sum := Plus(g.aliases[alias], count);
      if sum.None? { return None; }
      var aliases := g.aliases[alias := sum.value];
      assert aliases.Keys == g.aliases.Keys;
      return Some(g.(aliases := aliases));
    }
    RefreshedBest(g.aliases.Keys, g.representative, alias);
    var aliases := g.aliases[alias := count];
    assert aliases.Keys == g.aliases.Keys + {alias};
    return Some(g.(aliases := aliases, representative := Refreshed(g.representative, alias)));
  }

  /** All of the right counts can be added to the left ones. */
  predicate Mergeable(left: Aliases, right: Aliases) {
    forall a :: a in right ==> Addable(left, a, right[a])
  }

  function MergedAliases(left: Aliases, right: Aliases): Aliases
    requires Mergeable(left, right)
  {
    map a | a in left.Keys + right.Keys ::
      if a !in right then left[a] else if a in left then Plus(left[a], right[a]).value else right[a]
  }

  // ----- The table -----

  datatype FunctionError = AliasStartConflict(alias: Name) | CountAdd

  class Table {
    var byStart: Groups
    var byAlias: Index

    /** The condition `assert_indexes_coherent` checks, and each representative is the best alias. */
    ghost predicate Valid()
      reads this
    {
      Coherent(byStart, byAlias)
    }

    constructor ()
      ensures Valid() && byStart == map[] && byAlias == map[]
    {
      byStart, byAlias := map[], map[];
    }

    /** `insert_alias_at`: repeated counts add, a new alias joins the group at its start, and an
        alias of another start is refused. */
    method InsertAliasAt(start: Line, alias: Name, count: Count) returns (error: Option<FunctionError>)
      requires Valid()
      modifies this
      ensures Valid()
      ensures error.None? <==>
                && (alias in old(byAlias) ==> old(byAlias)[alias] == start)
                && (start in old(byStart) ==> Addable(old(byStart)[start].aliases, alias, count))
      ensures error.None? ==>
                && start in byStart && byStart == old(byStart)[start := byStart[start]]
                && byAlias == old(byAlias)[alias := start]
                && (if start in old(byStart) then
                      && byStart[start].end == old(byStart)[start].end
                      && byStart[start].aliases == Added(old(byStart)[start].aliases, alias, count)
                    else byStart[start].end == None && byStart[start].aliases == map[alias := count])
      ensures error.Some? ==> byStart == old(byStart) && byAlias == old(byAlias)
    {
      hide Plus, GroupValid, Coherent, Addable;
      if alias in byAlias && byAlias[alias] != start {
        return Some(AliasStartConflict(alias));
      }
      var group;
      if start in byStart {
        AliasHome(byStart, byAlias, start, alias);
        var grown := AddAlias(byStart[start], alias, count);
        if grown.None? { return Some(CountAdd); }
        group := grown.value;
        AddedKeys(byStart[start].aliases, alias, count);
      } else {
        NewGroup(start, alias, count);
        group := Group(start, None, map[alias := count], alias);
      }
      GroupGrows(byStart, byAlias, group, alias);
      byStart := byStart[start := group];
      byAlias := byAlias[alias := start];
      return None;
    }

    /** `ensure_group`: makes the group if there is none, otherwise lets a greater end win and
        adds the alias with a zero count if it is new. */
    method EnsureGroup(start: Line, alias: Name, end: Option<Line>)
      returns (error: Option<FunctionError>)
      requires Valid()
      modifies this
      ensures Valid()
      ensures error.None? <==> (alias in old(byAlias) ==> old(byAlias)[alias] == start)
      ensures error.Some? ==> byStart == old(byStart) && byAlias == old(byAlias)
      ensures error.None? ==>
                && start in byStart && byStart == old(byStart)[start := byStart[start]]
                && byAlias == old(byAlias)[alias := start]
                && (if start in old(byStart) then
                      && byStart[start].end == WiderEnd(old(byStart)[start].end, end)
                      && byStart[start].aliases ==
                         (if alias in old(byStart)[start].aliases then old(byStart)[start].aliases
                          else old(byStart)[start].aliases[alias := ZERO])
                    else byStart[start].end == end && byStart[start].aliases == map[alias := ZERO])
    {
      hide GroupValid, Coherent, Plus, Added;
      if alias in byAlias && byAlias[alias] != start {
        return Some(AliasStartConflict(alias));
      }
      var group;
      if start in byStart {
        AliasHome(byStart, byAlias, start, alias);
        group := byStart[start].(end := WiderEnd(byStart[start].end, end));
        SameAliases(byStart[start], group);
        if alias !in byAlias {
          AddedNew(group.aliases, alias, ZERO);
          var grown := AddAlias(group, alias, ZERO);
          group := grown.value;
        }
      } else {
        NewGroup(start, alias, ZERO);
        group := Group(start, end, map[alias := ZERO], alias);
        SameAliases(Group(start, None, map[alias := ZERO], alias), group);
      }
      assert group.aliases.Keys == (if start in byStart then byStart[start].aliases.Keys else {}) + {alias};
      GroupGrows(byStart, byAlias, group, alias);
      byStart := byStart[start := group];
      byAlias := byAlias[alias := start];
      return None;
    }

    /** `remove_alias`: the group goes with its last alias. */
    method RemoveAlias(alias: Name) returns (prior: Option<Count>)
      requires Valid()
      modifies this
      ensures Valid()
      ensures prior.Some? <==> alias in old(byAlias)
      ensures prior.None? ==> byStart == old(byStart) && byAlias == old(byAlias)
      ensures prior.Some? ==>
                && byAlias == old(byAlias) - {alias}
                && RemovedAt(old(byStart), byStart, old(byAlias)[alias], alias, prior.value)
    {
      hide GroupValid, Coherent;
      if alias !in byAlias { return None; }
      IndexedHome(byStart, byAlias, alias);
      var start := byAlias[alias];
      var group := byStart[start];
      AliasHome(byStart, byAlias, start, alias);
      prior := Some(group.aliases[alias]);
      var aliases := group.aliases - {alias};
      assert aliases.Keys == group.aliases.Keys - {alias};
      if aliases == map[] {
        GroupGoes(byStart, byAlias, start);
        assert group.aliases.Keys - {alias} == {} && group.aliases.Keys == {alias};
        byStart := byStart - {start};
      } else {
        var representative := group.representative;
        if representative == alias {
          representative := BestOf(aliases.Keys);
        }
        var smaller := group.(aliases := aliases, representative := representative);
        Shrinks(group, smaller, alias);
        GroupShrinks(byStart, byAlias, smaller, alias);
        byStart := byStart[start := smaller];
      }
      byAlias := byAlias - {alias};
    }

    /** `remove_group`. */
    method RemoveGroup(start: Line)
      requires Valid()
      modifies this
      ensures Valid() && byStart == old(byStart) - {start}
      ensures byAlias == if start in old(byStart) then old(byAlias) - old(byStart)[start].aliases.Keys else old(byAlias)
    {
      hide Coherent;
      if start in byStart {
        GroupGoes(byStart, byAlias, start);
        byAlias := byAlias - byStart[start].aliases.Keys;
        byStart := byStart - {start};
      }
    }

    /** `insert_group`: replaces the group at its start, unless one of its aliases belongs elsewhere. */
    method InsertGroup(group: Group) returns (error: Option<FunctionError>)
      requires Valid() && GroupValid(group)
      modifies this
      ensures Valid()
      ensures error.None? <==> forall a :: a in group.aliases && a in old(byAlias) ==> old(byAlias)[a] == group.start
      ensures error.None? ==> byStart == old(byStart)[group.start := group]
      ensures error.None? && group.start !in old(byStart) ==>
                byAlias == old(byAlias) + map a | a in group.aliases.Keys :: group.start
      ensures error.Some? ==> byStart == old(byStart) - {group.start}
    {
      hide GroupValid, Coherent;
      ghost var start, groups, index := group.start, byStart, byAlias;
      RemoveGroup(group.start);
      LeftBehind(groups, index, start);
      var taken := group.aliases.Keys * byAlias.Keys;
      if taken != {} {
        var alias :| alias in taken;
        return Some(AliasStartConflict(alias));
      }
      assert forall a :: a in group.aliases.Keys && a in byAlias.Keys ==> a in taken;
      GroupComes(byStart, byAlias, group);
      byAlias := byAlias + map a | a in group.aliases.Keys :: group.start;
      byStart := byStart[group.start := group];
      return None;
    }
  }

  lemma SameAliases(g: Group, h: Group)
    requires GroupValid(g) && g.aliases == h.aliases && g.representative == h.representative
    ensures GroupValid(h)
  {}

  lemma AddedNew(aliases: Aliases, alias: Name, count: Count)
    requires alias !in aliases
    ensures Addable(aliases, alias, count) && Added(aliases, alias, count) == aliases[alias := count]
  {}

  /** What removing one alias does to the groups. */
  ghost predicate RemovedAt(before: Groups, after: Groups, start: Line, alias: Name, count: Count) {
    && start in before && alias in before[start].aliases && before[start].aliases[alias] == count
    && if before[start].aliases.Keys == {alias} then after == before - {start}
       else
         && start in after && after == before[start := after[start]]
         && after[start].start == start && after[start].end == before[start].end
         && after[start].aliases == before[start].aliases - {alias}
  }

  /** After a group is gone, exactly the aliases of other starts are still indexed. */
  lemma LeftBehind(groups: Groups, index: Index, start: Line)
    requires Coherent(groups, index)
    ensures var rest := if start in groups then index - groups[start].aliases.Keys else index;
            forall a :: a in rest <==> a in index && index[a] != start
  {
    hide Best;
  }

  lemma Shrinks(g: Group, smaller: Group, alias: Name)
    requires GroupValid(g) && smaller.aliases.Keys == g.aliases.Keys - {alias}
    requires if g.representative == alias then Best(smaller.aliases.Keys, smaller.representative)
             else smaller.representative == g.representative
    ensures GroupValid(smaller)
  {
    hide Prefers;
  }

  lemma AddedKeys(aliases: Aliases, alias: Name, count: Count)
    requires Addable(aliases, alias, count)
    ensures Added(aliases, alias, count).Keys == aliases.Keys + {alias}
  {
    hide Plus;
  }

  lemma NewGroup(start: Line, alias: Name, count: Count)
    ensures GroupValid(Group(start, None, map[alias := count], alias))
  {}
}
