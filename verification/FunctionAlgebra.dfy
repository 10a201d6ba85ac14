/** Ordered union, intersection and difference of function tables. Every operation leaves both
    indexes coherent, also when it fails, and each result is characterised group by group. */
module FunctionAlgebra {
  import opened Wrappers
  import opened Counters
  import opened Functions

  // ----- Union -----

  /** No alias starts at different lines in the two tables. */
  ghost predicate Agree(l: Index, r: Index) {
    forall a :: a in l && a in r ==> l[a] == r[a]
  }

  ghost predicate CountsAdd(l: Groups, r: Groups) {
    forall s :: s in l && s in r ==> Mergeable(l[s].aliases, r[s].aliases)
  }

  /** The left range is kept; the aliases are united and common counts added. */
  ghost predicate MergedGroup(l: Group, r: Group, u: Group) {
    u.end == l.end && Mergeable(l.aliases, r.aliases) && u.aliases == MergedAliases(l.aliases, r.aliases)
  }

  ghost predicate IsUnion(l: Groups, r: Groups, u: Groups) {
    && u.Keys == l.Keys + r.Keys
    && (forall s :: s in l && s !in r ==> u[s] == l[s])
    && (forall s :: s in r && s !in l ==> u[s] == r[s])
    && (forall s :: s in l && s in r ==> MergedGroup(l[s], r[s], u[s]))
  }

  /** The union of the left table with the right groups in `done`. */
  ghost predicate UnionSoFar(l: Groups, li: Index, r: Groups, ri: Index, done: set<Line>, u: Groups, ui: Index) {
    GroupsSoFar(l, r, done, u) && IndexSoFar(li, ri, done, ui)
  }

  ghost predicate GroupsSoFar(l: Groups, r: Groups, done: set<Line>, u: Groups) {
    && done <= r.Keys && u.Keys == l.Keys + done
    && (forall s :: s in l && s !in done ==> u[s] == l[s])
    && (forall s :: s in done && s !in l ==> u[s] == r[s])
    && (forall s :: s in done && s in l ==> MergedGroup(l[s], r[s], u[s]))
  }

  ghost predicate IndexSoFar(li: Index, ri: Index, done: set<Line>, ui: Index) {
    && (forall a :: a in ui <==> a in li || (a in ri && ri[a] in done))
    && (forall a :: a in ui ==> ui[a] == if a in li then li[a] else ri[a])
    && (forall a :: a in li && a in ri && ri[a] in done ==> li[a] == ri[a])
  }

  function AllAt(aliases: Aliases, start: Line): Index {
    map a | a in aliases.Keys :: start
  }

  lemma UnionStart(l: Groups, li: Index, r: Groups, ri: Index)
    ensures UnionSoFar(l, li, r, ri, {}, l, li)
  {}

  lemma UnionStep(l: Groups, li: Index, r: Groups, ri: Index, done: set<Line>, u: Groups, ui: Index, s: Line, g: Group)
    requires UnionSoFar(l, li, r, ri, done, u, ui) && Coherent(r, ri) && s in r && s !in done
    requires if s in l then MergedGroup(l[s], r[s], g) else g == r[s]
    requires forall a :: a in r[s].aliases && a in ui ==> ui[a] == s
    ensures UnionSoFar(l, li, r, ri, done + {s}, u[s := g], ui + AllAt(r[s].aliases, s))
  {
    hide GroupsSoFar, IndexSoFar, Coherent;
    GroupsStep(l, r, done, u, s, g);
    forall a ensures a in r[s].aliases <==> a in ri && ri[a] == s {
      AliasHome(r, ri, s, a);
    }
    IndexStep(li, ri, done, ui, s, r[s].aliases);
  }

  lemma GroupsStep(l: Groups, r: Groups, done: set<Line>, u: Groups, s: Line, g: Group)
    requires GroupsSoFar(l, r, done, u) && s in r && s !in done
    requires if s in l then MergedGroup(l[s], r[s], g) else g == r[s]
    ensures GroupsSoFar(l, r, done + {s}, u[s := g])
  {
    hide MergedGroup;
  }

  lemma IndexStep(li: Index, ri: Index, done: set<Line>, ui: Index, s: Line, aliases: Aliases)
    requires IndexSoFar(li, ri, done, ui)
    requires forall a :: a in aliases <==> a in ri && ri[a] == s
    requires forall a :: a in aliases && a in ui ==> ui[a] == s
    ensures IndexSoFar(li, ri, done + {s}, ui + AllAt(aliases, s))
  {}

  /** An alias that is indexed elsewhere when its group comes up starts differently on the left. */
  lemma UnionClash(l: Groups, li: Index, r: Groups, ri: Index, done: set<Line>, u: Groups, ui: Index, s: Line, a: Name)
    requires UnionSoFar(l, li, r, ri, done, u, ui) && Coherent(r, ri) && s in r
    requires a in r[s].aliases && a in ui && ui[a] != s
    ensures !Agree(li, ri)
  {
    hide MergedGroup, Best;
    AliasHome(r, ri, s, a);
    assert a in li && a in ri && li[a] != ri[a];
  }

  lemma UnionDone(l: Groups, li: Index, r: Groups, ri: Index, u: Groups, ui: Index)
    requires UnionSoFar(l, li, r, ri, r.Keys, u, ui) && Coherent(r, ri)
    ensures IsUnion(l, r, u) && Agree(li, ri) && CountsAdd(l, r)
  {
    hide Best, Mergeable;
    forall a | a in li && a in ri ensures li[a] == ri[a] {
      IndexedHome(r, ri, a);
    }
  }

  /** The right aliases of a start that both tables have, one by one. */
  method AddAliases(left: Table, start: Line, aliases: Aliases) returns (error: Option<FunctionError>)
    requires left.Valid() && start in left.byStart
    modifies left
    ensures left.Valid()
    ensures error.None? <==>
              && (forall a :: a in aliases && a in old(left.byAlias) ==> old(left.byAlias)[a] == start)
              && Mergeable(old(left.byStart)[start].aliases, aliases)
    ensures error.None? ==>
              && start in left.byStart && left.byStart == old(left.byStart)[start := left.byStart[start]]
              && left.byStart[start].end == old(left.byStart)[start].end
              && left.byStart[start].aliases == MergedAliases(old(left.byStart)[start].aliases, aliases)
              && left.byAlias == old(left.byAlias) + AllAt(aliases, start)
  {
    hide Coherent, MergeSoFar, MergedAliases, Addable, Plus, Added;
    ghost var groups, index := left.byStart, left.byAlias;
    var todo := aliases.Keys;
    ghost var done: set<Name> := {};
    MergeStart(groups, index, start, aliases);
    while todo != {}
      invariant left.Valid() && start in left.byStart
      invariant todo + done == aliases.Keys && todo !! done
      invariant MergeSoFar(groups, index, start, aliases, done, left.byStart, left.byAlias)
      decreases todo
    {
      var a :| a in todo;
      MergeStep(groups, index, start, aliases, done, left.byStart, left.byAlias, a);
      error := left.InsertAliasAt(start, a, aliases[a]);
      if error.Some? { return; }
      todo := todo - {a};
      done := done + {a};
    }
    assert done == aliases.Keys;
    MergeDone(groups, index, start, aliases, left.byStart, left.byAlias);
    error := None;
  }

  /** The aliases in `done` have been added at `start`. */
  ghost predicate MergeSoFar(groups: Groups, index: Index, start: Line, aliases: Aliases, done: set<Name>,
                             u: Groups, ui: Index) {
    && start in groups && start in u && done <= aliases.Keys && u == groups[start := u[start]]
    && u[start].end == groups[start].end
    && CountsSoFar(groups[start].aliases, aliases, done, u[start].aliases)
    && (forall a :: a in ui <==> a in index || a in done)
    && (forall a :: a in ui ==> ui[a] == if a in done then start else index[a])
    && (forall a :: a in done && a in index ==> index[a] == start)
  }

  ghost predicate CountsSoFar(before: Aliases, aliases: Aliases, done: set<Name>, after: Aliases) {
    && done <= aliases.Keys
    && (forall a :: a in done ==> Addable(before, a, aliases[a]))
    && (forall a :: a in after <==> a in before || a in done)
    && (forall a :: a in before && a !in done ==> after[a] == before[a])
    && (forall a :: a in done ==> after[a] == Sum(before, a, aliases[a]))
  }

  lemma CountsStep(before: Aliases, aliases: Aliases, done: set<Name>, after: Aliases, a: Name)
    requires CountsSoFar(before, aliases, done, after) && a in aliases && a !in done
    ensures Addable(after, a, aliases[a]) <==> Addable(before, a, aliases[a])
    ensures Addable(after, a, aliases[a]) ==>
              CountsSoFar(before, aliases, done + {a}, Added(after, a, aliases[a]))
  {
    hide Plus;
  }

  function Sum(aliases: Aliases, a: Name, count: Count): Count
    requires Addable(aliases, a, count)
  {
    if a in aliases then Plus(aliases[a], count).value else count
  }

  lemma MergeStart(groups: Groups, index: Index, start: Line, aliases: Aliases)
    requires start in groups
    ensures MergeSoFar(groups, index, start, aliases, {}, groups, index)
  {}

  lemma MergeStep(groups: Groups, index: Index, start: Line, aliases: Aliases, done: set<Name>,
                  u: Groups, ui: Index, a: Name)
    requires MergeSoFar(groups, index, start, aliases, done, u, ui) && a in aliases && a !in done
    ensures start in u && start in groups
    ensures a in ui <==> a in index
    ensures a in index ==> ui[a] == index[a]
    ensures Addable(u[start].aliases, a, aliases[a]) <==> Addable(groups[start].aliases, a, aliases[a])
    ensures Addable(u[start].aliases, a, aliases[a]) && (a in index ==> index[a] == start) ==>
              forall g: Group :: g.end == u[start].end && g.aliases == Added(u[start].aliases, a, aliases[a]) ==>
                MergeSoFar(groups, index, start, aliases, done + {a}, u[start := g], ui[a := start])
  {
    hide Addable, Added, CountsSoFar;
    CountsStep(groups[start].aliases, aliases, done, u[start].aliases, a);
  }

  lemma MergeDone(groups: Groups, index: Index, start: Line, aliases: Aliases, u: Groups, ui: Index)
    requires MergeSoFar(groups, index, start, aliases, aliases.Keys, u, ui)
    ensures start in groups && start in u && Mergeable(groups[start].aliases, aliases)
    ensures u[start].aliases == MergedAliases(groups[start].aliases, aliases)
    ensures u == groups[start := u[start]] && u[start].end == groups[start].end
    ensures ui == index + AllAt(aliases, start)
    ensures forall a :: a in aliases && a in index ==> index[a] == start
  {
    hide Plus;
  }

  /** `union`: copies right-only groups and adds the aliases of common starts. It succeeds exactly
      when the tables agree on where common aliases start and the common counts add up. */
  method Union(left: Table, right: Table) returns (error: Option<FunctionError>)
    requires left != right && left.Valid() && right.Valid()
    modifies left
    ensures left.Valid()
    ensures error.None? <==> Agree(old(left.byAlias), right.byAlias) && CountsAdd(old(left.byStart), right.byStart)
    ensures error.None? ==> IsUnion(old(left.byStart), right.byStart, left.byStart)
  {
    hide Coherent, UnionSoFar, IsUnion, Agree, Mergeable, MergedAliases, GroupValid;
    ghost var l, li := left.byStart, left.byAlias;
    var r := right.byStart;
    var todo := r.Keys;
    ghost var done: set<Line> := {};
    UnionStart(l, li, r, right.byAlias);
    while todo != {}
      invariant left.Valid() && todo + done == r.Keys && todo !! done
      invariant UnionSoFar(l, li, r, right.byAlias, done, left.byStart, left.byAlias)
      decreases todo
    {
      var s :| s in todo;
      ghost var u, ui := left.byStart, left.byAlias;
      UnionPending(l, li, r, right.byAlias, done, u, ui, s);
      AliasHome(r, right.byAlias, s, r[s].representative);
      if s in left.byStart {
        error := AddAliases(left, s, r[s].aliases);
      } else {
        error := left.InsertGroup(r[s]);
      }
      if error.Some? {
        if a :| a in r[s].aliases && a in ui && ui[a] != s {
          UnionClash(l, li, r, right.byAlias, done, u, ui, s, a);
        }
        return;
      }
      UnionStep(l, li, r, right.byAlias, done, u, ui, s, left.byStart[s]);
      todo := todo - {s};
      done := done + {s};
    }
    assert done == r.Keys;
    UnionDone(l, li, r, right.byAlias, left.byStart, left.byAlias);
    error := None;
  }

  lemma UnionPending(l: Groups, li: Index, r: Groups, ri: Index, done: set<Line>, u: Groups, ui: Index, s: Line)
    requires UnionSoFar(l, li, r, ri, done, u, ui) && s !in done
    ensures s in u <==> s in l
    ensures s in l ==> u[s] == l[s]
  {
    hide MergedGroup;
  }

  /** The union is determined by its groups: coherent tables leave no choice of representative. */
  lemma UnionDetermined(l: Groups, r: Groups, u: Groups, v: Groups)
    requires IsUnion(l, r, u) && IsUnion(l, r, v) && GroupsValid(u) && GroupsValid(v)
    ensures u == v
  {
    hide Best, Mergeable, MergedAliases;
    forall s | s in u ensures u[s] == v[s] {
      if s in l && s in r {
        BestUnique(u[s].aliases.Keys, u[s].representative, v[s].representative);
      }
    }
  }

  lemma MergedCommutes(left: Aliases, right: Aliases)
    ensures Mergeable(left, right) <==> Mergeable(right, left)
    ensures Mergeable(left, right) ==> MergedAliases(left, right) == MergedAliases(right, left)
  {
    hide Plus;
    forall a | a in left && a in right ensures Plus(left[a], right[a]) == Plus(right[a], left[a]) {
      PlusCommutes(left[a], right[a]);
    }
    assert Mergeable(left, right) ==> forall a :: a in left && a in right ==> Addable(left, a, right[a]);
    assert Mergeable(right, left) ==> forall a :: a in left && a in right ==> Addable(right, a, left[a]);
  }

  /** Union is ordered only in the ranges: with operands swapped it succeeds alike, and gives the
      same table exactly when the ends of common groups are the same. */
  lemma UnionCommutesIff(l: Groups, li: Index, r: Groups, ri: Index, u: Groups, v: Groups)
    requires Coherent(l, li) && Coherent(r, ri)
    requires IsUnion(l, r, u) && IsUnion(r, l, v) && GroupsValid(u) && GroupsValid(v)
    ensures u == v <==> forall s :: s in l && s in r ==> l[s].end == r[s].end
  {
    hide Best, Mergeable, MergedAliases, Indexed;
    assert u.Keys == v.Keys;
    forall s | s in l && s in r
      ensures u[s].aliases == v[s].aliases && u[s].representative == v[s].representative && u[s].start == v[s].start
    {
      MergedCommutes(l[s].aliases, r[s].aliases);
      BestUnique(u[s].aliases.Keys, u[s].representative, v[s].representative);
    }
    forall s | s in l && s in r ensures u[s].end == l[s].end && v[s].end == r[s].end {
    }
    if forall s :: s in l && s in r ==> l[s].end == r[s].end {
      forall s | s in u ensures u[s] == v[s] {
      }
    }
  }

  lemma UnionSucceedsAlike(l: Groups, li: Index, r: Groups, ri: Index)
    ensures Agree(li, ri) && CountsAdd(l, r) <==> Agree(ri, li) && CountsAdd(r, l)
  {
    hide Mergeable;
    forall s | s in l && s in r
      ensures Mergeable(l[s].aliases, r[s].aliases) <==> Mergeable(r[s].aliases, l[s].aliases)
    {
      MergedCommutes(l[s].aliases, r[s].aliases);
    }
  }

  // ----- Three tables -----

  /** A union, start by start, with an absent group taken as one without aliases. */
  lemma UnionAt(l: Groups, r: Groups, u: Groups, s: Line)
    requires IsUnion(l, r, u)
    ensures s in u <==> s in l || s in r
    ensures Mergeable(AliasesAt(l, s), AliasesAt(r, s))
    ensures AliasesAt(u, s) == MergedAliases(AliasesAt(l, s), AliasesAt(r, s))
    ensures s in u ==> u[s].end == if s in l then l[s].end else r[s].end
  {
    hide Plus;
  }

  /** The counts of one alias, added in both bracketings, come out alike. */
  ghost predicate SumsAgree(x: Aliases, y: Aliases, z: Aliases, n: Name) {
    n in x && n in y && n in z ==> LeftSum(x[n], y[n], z[n]) == RightSum(x[n], y[n], z[n])
  }

  lemma MergedAssociatesIff(x: Aliases, y: Aliases, z: Aliases)
    requires Mergeable(x, y) && Mergeable(MergedAliases(x, y), z)
    requires Mergeable(y, z) && Mergeable(x, MergedAliases(y, z))
    ensures MergedAliases(MergedAliases(x, y), z) == MergedAliases(x, MergedAliases(y, z)) <==>
              forall n :: SumsAgree(x, y, z, n)
  {
    hide Plus;
    var xy, yz := MergedAliases(x, y), MergedAliases(y, z);
    var u, v := MergedAliases(xy, z), MergedAliases(x, yz);
    assert u.Keys == v.Keys;
    forall n | n in u ensures u[n] == v[n] <==> SumsAgree(x, y, z, n) {
      if n in x && n in y && n in z {
        assert Addable(x, n, y[n]) && Addable(xy, n, z[n]) && Addable(y, n, z[n]) && Addable(x, n, yz[n]);
      }
    }
    if u == v {
      forall n ensures SumsAgree(x, y, z, n) {
        if n in x && n in y && n in z { assert n in u; }
      }
    }
  }

  /** Uniting three tables gives the same table in both bracketings exactly when the counts of the
      aliases that all three share at a start do. */
  lemma UnionAssociatesIff(a: Groups, b: Groups, c: Groups, ab: Groups, bc: Groups, u: Groups, v: Groups)
    requires IsUnion(a, b, ab) && IsUnion(ab, c, u) && IsUnion(b, c, bc) && IsUnion(a, bc, v)
    requires GroupsValid(u) && GroupsValid(v)
    ensures u == v <==> forall s, n :: SumsAgree(AliasesAt(a, s), AliasesAt(b, s), AliasesAt(c, s), n)
  {
    hide IsUnion, AliasesAt, Mergeable, MergedAliases, SumsAgree, GroupValid;
    forall s
      ensures s in u <==> s in v
      ensures AliasesAt(u, s) == AliasesAt(v, s) <==>
                forall n :: SumsAgree(AliasesAt(a, s), AliasesAt(b, s), AliasesAt(c, s), n)
      ensures s in u && s in v ==> (u[s] == v[s] <==> AliasesAt(u, s) == AliasesAt(v, s))
    {
      UnionAt(a, b, ab, s);
      UnionAt(ab, c, u, s);
      UnionAt(b, c, bc, s);
      UnionAt(a, bc, v, s);
      MergedAssociatesIff(AliasesAt(a, s), AliasesAt(b, s), AliasesAt(c, s));
      if s in u && s in v { SameGroup(u, v, s); }
    }
    AliasesOutside(u);
    AliasesOutside(v);
    assert u.Keys == v.Keys;
  }

  lemma AliasesOutside(u: Groups)
    ensures forall s :: s !in u ==> AliasesAt(u, s) == map[]
  {}

  lemma SameGroup(u: Groups, v: Groups, s: Line)
    requires GroupsValid(u) && GroupsValid(v) && s in u && s in v && u[s].end == v[s].end
    ensures u[s] == v[s] <==> AliasesAt(u, s) == AliasesAt(v, s)
  {
    hide Best;
    if AliasesAt(u, s) == AliasesAt(v, s) {
      BestUnique(u[s].aliases.Keys, u[s].representative, v[s].representative);
    }
  }

  ghost predicate AllKept(groups: Groups) {
    forall s, n :: s in groups && n in groups[s].aliases ==> IsKept(groups[s].aliases[n])
  }

  /** Whether coerced zeros spoil the sum of an alias that all three tables have at a start. */
  ghost predicate NamesApart(a: Groups, b: Groups, c: Groups, s: Line, n: Name) {
    s in a && s in b && s in c && n in a[s].aliases && n in b[s].aliases && n in c[s].aliases ==>
      ZerosApart(a[s].aliases[n], b[s].aliases[n], c[s].aliases[n])
  }

  /** With counters as the parser keeps them, union is associative exactly when no two coerced zeros
      meet a counter that is not canonical. */
  lemma KeptUnionAssociatesIff(a: Groups, b: Groups, c: Groups, ab: Groups, bc: Groups, u: Groups, v: Groups)
    requires AllKept(a) && AllKept(b) && AllKept(c)
    requires IsUnion(a, b, ab) && IsUnion(ab, c, u) && IsUnion(b, c, bc) && IsUnion(a, bc, v)
    requires GroupsValid(u) && GroupsValid(v)
    ensures u == v <==> forall s, n :: NamesApart(a, b, c, s, n)
  {
    hide IsUnion, GroupValid, LeftSum, RightSum, ZerosApart, IsKept;
    UnionAssociatesIff(a, b, c, ab, bc, u, v);
    forall s, n
      ensures SumsAgree(AliasesAt(a, s), AliasesAt(b, s), AliasesAt(c, s), n) <==> NamesApart(a, b, c, s, n)
    {
      if s in a && s in b && s in c && n in a[s].aliases && n in b[s].aliases && n in c[s].aliases {
        PlusAssociatesIff(a[s].aliases[n], b[s].aliases[n], c[s].aliases[n]);
      }
    }
  }

  /** The counts of one alias add up in both bracketings, or in neither. */
  ghost predicate SumsSucceedAlike(x: Aliases, y: Aliases, z: Aliases, n: Name) {
    n in x && n in y && n in z ==> (LeftSum(x[n], y[n], z[n]).Some? <==> RightSum(x[n], y[n], z[n]).Some?)
  }

  /** If one bracketing of the counts of a start adds up, and shared counts do alike, so does the
      other. */
  lemma MergeableAlike(x: Aliases, y: Aliases, z: Aliases)
    requires forall n :: SumsSucceedAlike(x, y, z, n)
    ensures Mergeable(x, y) && Mergeable(MergedAliases(x, y), z) ==>
              Mergeable(y, z) && Mergeable(x, MergedAliases(y, z))
    ensures Mergeable(y, z) && Mergeable(x, MergedAliases(y, z)) ==>
              Mergeable(x, y) && Mergeable(MergedAliases(x, y), z)
  {
    hide Plus;
    if Mergeable(x, y) && Mergeable(MergedAliases(x, y), z) {
      MergeableOnTheRight(x, y, z);
    }
    if Mergeable(y, z) && Mergeable(x, MergedAliases(y, z)) {
      MergeableOnTheLeft(x, y, z);
    }
  }

  lemma MergeableOnTheRight(x: Aliases, y: Aliases, z: Aliases)
    requires (forall n :: SumsSucceedAlike(x, y, z, n)) && Mergeable(x, y) && Mergeable(MergedAliases(x, y), z)
    ensures Mergeable(y, z) && Mergeable(x, MergedAliases(y, z))
  {
    hide Plus;
    var xy := MergedAliases(x, y);
    forall n | n in z ensures Addable(y, n, z[n]) {
      assert SumsSucceedAlike(x, y, z, n) && Addable(xy, n, z[n]);
      if n in x && n in y { assert Addable(x, n, y[n]); }
    }
    forall n | n in MergedAliases(y, z) ensures Addable(x, n, MergedAliases(y, z)[n]) {
      assert SumsSucceedAlike(x, y, z, n);
      if n in y { assert Addable(x, n, y[n]); }
      if n in z { assert Addable(xy, n, z[n]) && Addable(y, n, z[n]); }
    }
  }

  lemma MergeableOnTheLeft(x: Aliases, y: Aliases, z: Aliases)
    requires (forall n :: SumsSucceedAlike(x, y, z, n)) && Mergeable(y, z) && Mergeable(x, MergedAliases(y, z))
    ensures Mergeable(x, y) && Mergeable(MergedAliases(x, y), z)
  {
    hide Plus;
    var yz := MergedAliases(y, z);
    forall n | n in y ensures Addable(x, n, y[n]) {
      assert SumsSucceedAlike(x, y, z, n) && Addable(x, n, yz[n]);
      if n in z { assert Addable(y, n, z[n]); }
    }
    forall n | n in z ensures Addable(MergedAliases(x, y), n, z[n]) {
      assert SumsSucceedAlike(x, y, z, n) && Addable(x, n, yz[n]) && Addable(y, n, z[n]);
      if n in y { assert Addable(x, n, y[n]); }
    }
  }

  /** Where a united table has its aliases. */
  lemma UnionHome(l: Groups, li: Index, r: Groups, ri: Index, u: Groups, ui: Index, n: Name)
    requires Coherent(l, li) && Coherent(r, ri) && Coherent(u, ui) && IsUnion(l, r, u)
    ensures n in ui <==> n in li || n in ri
    ensures n in li ==> ui[n] == li[n]
    ensures n in ri ==> ui[n] == ri[n]
  {
    hide Coherent, IsUnion, Mergeable;
    if n in li {
      IndexedHome(l, li, n);
      UnionAt(l, r, u, li[n]);
      AliasHome(u, ui, li[n], n);
    }
    if n in ri {
      IndexedHome(r, ri, n);
      UnionAt(l, r, u, ri[n]);
      AliasHome(u, ui, ri[n], n);
    }
    if n in ui {
      var s := ui[n];
      IndexedHome(u, ui, n);
      UnionAt(l, r, u, s);
      if s in l { AliasHome(l, li, s, n); }
      if s in r { AliasHome(r, ri, s, n); }
    }
  }

  /** Given the two inner unions, the outer ones succeed alike where shared counts do. */
  lemma OuterUnionsSucceedAlike(a: Groups, ai: Index, b: Groups, bi: Index, c: Groups, ci: Index,
                                ab: Groups, abi: Index, bc: Groups, bci: Index)
    requires Coherent(a, ai) && Coherent(b, bi) && Coherent(c, ci) && Coherent(ab, abi) && Coherent(bc, bci)
    requires Agree(ai, bi) && IsUnion(a, b, ab) && Agree(bi, ci) && IsUnion(b, c, bc)
    requires forall s, n :: SumsSucceedAlike(AliasesAt(a, s), AliasesAt(b, s), AliasesAt(c, s), n)
    ensures Agree(abi, ci) && CountsAdd(ab, c) <==> Agree(ai, bci) && CountsAdd(a, bc)
  {
    hide Coherent, IsUnion, Mergeable, MergedAliases, SumsSucceedAlike, AliasesAt;
    forall n
      ensures n in abi && n in ci && abi[n] != ci[n] <==> n in ai && n in bci && ai[n] != bci[n]
    {
      UnionHome(a, ai, b, bi, ab, abi, n);
      UnionHome(b, bi, c, ci, bc, bci, n);
    }
    forall s
      ensures Mergeable(AliasesAt(ab, s), AliasesAt(c, s)) <==> Mergeable(AliasesAt(a, s), AliasesAt(bc, s))
    {
      UnionAt(a, b, ab, s);
      UnionAt(b, c, bc, s);
      MergeableAlike(AliasesAt(a, s), AliasesAt(b, s), AliasesAt(c, s));
    }
    CountsAddEverywhere(ab, c);
    CountsAddEverywhere(a, bc);
  }

  lemma CountsAddEverywhere(l: Groups, r: Groups)
    ensures CountsAdd(l, r) <==> forall s :: Mergeable(AliasesAt(l, s), AliasesAt(r, s))
  {
    hide Plus;
    if CountsAdd(l, r) {
      forall s ensures Mergeable(AliasesAt(l, s), AliasesAt(r, s)) {
      }
    }
    if forall s :: Mergeable(AliasesAt(l, s), AliasesAt(r, s)) {
      forall s | s in l && s in r ensures Mergeable(l[s].aliases, r[s].aliases) {
        assert Mergeable(AliasesAt(l, s), AliasesAt(r, s));
      }
    }
  }

  // ----- Whole bracketings -----

  /** What a union needs to succeed. */
  ghost predicate Unites(l: Groups, li: Index, r: Groups, ri: Index) {
    Agree(li, ri) && CountsAdd(l, r)
  }

  lemma MergedNonempty(l: Group, r: Aliases)
    requires GroupValid(l) && Mergeable(l.aliases, r)
    ensures MergedAliases(l.aliases, r) != map[]
  {
    HasRepresentative(l);
    assert l.representative in MergedAliases(l.aliases, r);
  }

  ghost function UnitedGroup(l: Group, r: Group): (u: Group)
    requires GroupValid(l) && Mergeable(l.aliases, r.aliases)
    ensures GroupValid(u) && MergedGroup(l, r, u) && u.start == l.start
  {
    MergedNonempty(l, r.aliases);
    GroupOf(l.start, l.end, MergedAliases(l.aliases, r.aliases))
  }

  /** The one table that a successful union gives. */
  ghost function United(l: Groups, r: Groups): Groups
    requires CountsAdd(l, r) && GroupsValid(l)
  {
    map s | s in l.Keys + r.Keys ::
      if s !in r then l[s] else if s !in l then r[s] else UnitedGroup(l[s], r[s])
  }

  function UnitedIndex(li: Index, ri: Index): Index {
    map n | n in li.Keys + ri.Keys :: if n in li then li[n] else ri[n]
  }

  lemma UnitedIsUnion(l: Groups, li: Index, r: Groups, ri: Index)
    requires Coherent(l, li) && Coherent(r, ri) && Unites(l, li, r, ri)
    ensures IsUnion(l, r, United(l, r)) && Coherent(United(l, r), UnitedIndex(li, ri))
  {
    hide GroupValid, UnitedGroup, Mergeable, MergedAliases, Indexed;
    var u := United(l, r);
    assert IsUnion(l, r, u);
    forall s, n ensures s in u && n in u[s].aliases <==> n in UnitedIndex(li, ri) && UnitedIndex(li, ri)[n] == s {
      UnitedHome(l, li, r, ri, u, s, n);
    }
    IndexedIff(u, UnitedIndex(li, ri));
  }

  lemma UnitedHome(l: Groups, li: Index, r: Groups, ri: Index, u: Groups, s: Line, n: Name)
    requires Coherent(l, li) && Coherent(r, ri) && Agree(li, ri) && IsUnion(l, r, u)
    ensures s in u && n in u[s].aliases <==> n in UnitedIndex(li, ri) && UnitedIndex(li, ri)[n] == s
  {
    hide Coherent, IsUnion, Mergeable;
    UnionAt(l, r, u, s);
    if s in l { AliasHome(l, li, s, n); }
    if s in r { AliasHome(r, ri, s, n); }
    if n in li { IndexedHome(l, li, n); }
    if n in ri { IndexedHome(r, ri, n); }
  }

  lemma IndexedIff(groups: Groups, index: Index)
    requires forall s, n :: s in groups && n in groups[s].aliases <==> n in index && index[n] == s
    ensures Indexed(groups, index)
  {
    forall a | a in index ensures index[a] in groups && a in groups[index[a]].aliases {
      var s := index[a];
      assert s in groups && a in groups[s].aliases <==> a in index && index[a] == s;
    }
  }

  lemma CoherentGroups(groups: Groups, index: Index)
    requires Coherent(groups, index)
    ensures GroupsValid(groups)
  {}

  /** Three tables unite in one bracketing exactly when they do in the other, where the counts that
      all three share add up in both or in neither. */
  lemma BracketingsSucceedAlike(a: Groups, ai: Index, b: Groups, bi: Index, c: Groups, ci: Index)
    requires Coherent(a, ai) && Coherent(b, bi) && Coherent(c, ci)
    requires forall s, n :: SumsSucceedAlike(AliasesAt(a, s), AliasesAt(b, s), AliasesAt(c, s), n)
    ensures Unites(a, ai, b, bi) && Unites(United(a, b), UnitedIndex(ai, bi), c, ci) <==>
            Unites(b, bi, c, ci) && Unites(a, ai, United(b, c), UnitedIndex(bi, ci))
  {
    hide Coherent, IsUnion, CountsAdd, SumsSucceedAlike, AliasesAt, United, UnitedIndex, GroupsValid;
    CoherentGroups(a, ai);
    CoherentGroups(b, bi);
    if Unites(a, ai, b, bi) {
      UnitedIsUnion(a, ai, b, bi);
      if Unites(United(a, b), UnitedIndex(ai, bi), c, ci) {
        InnerRight(a, ai, b, bi, c, ci, United(a, b), UnitedIndex(ai, bi));
      }
    }
    if Unites(b, bi, c, ci) {
      UnitedIsUnion(b, bi, c, ci);
      if Unites(a, ai, United(b, c), UnitedIndex(bi, ci)) {
        InnerLeft(a, ai, b, bi, c, ci, United(b, c), UnitedIndex(bi, ci));
      }
    }
    if Unites(a, ai, b, bi) && Unites(b, bi, c, ci) {
      OuterUnionsSucceedAlike(a, ai, b, bi, c, ci, United(a, b), UnitedIndex(ai, bi),
                              United(b, c), UnitedIndex(bi, ci));
    }
  }

  lemma InnerRight(a: Groups, ai: Index, b: Groups, bi: Index, c: Groups, ci: Index, ab: Groups, abi: Index)
    requires Coherent(a, ai) && Coherent(b, bi) && Coherent(ab, abi) && IsUnion(a, b, ab) && Unites(ab, abi, c, ci)
    requires forall s, n :: SumsSucceedAlike(AliasesAt(a, s), AliasesAt(b, s), AliasesAt(c, s), n)
    ensures Unites(b, bi, c, ci)
  {
    hide Coherent, IsUnion, CountsAdd, SumsSucceedAlike, AliasesAt, Mergeable, MergedAliases;
    forall n | n in bi && n in ci ensures bi[n] == ci[n] {
      UnionHome(a, ai, b, bi, ab, abi, n);
    }
    CountsAddEverywhere(ab, c);
    forall s ensures Mergeable(AliasesAt(b, s), AliasesAt(c, s)) {
      UnionAt(a, b, ab, s);
      MergeableAlike(AliasesAt(a, s), AliasesAt(b, s), AliasesAt(c, s));
    }
    CountsAddEverywhere(b, c);
  }

  lemma InnerLeft(a: Groups, ai: Index, b: Groups, bi: Index, c: Groups, ci: Index, bc: Groups, bci: Index)
    requires Coherent(b, bi) && Coherent(c, ci) && Coherent(bc, bci) && IsUnion(b, c, bc) && Unites(a, ai, bc, bci)
    requires forall s, n :: SumsSucceedAlike(AliasesAt(a, s), AliasesAt(b, s), AliasesAt(c, s), n)
    ensures Unites(a, ai, b, bi)
  {
    hide Coherent, IsUnion, CountsAdd, SumsSucceedAlike, AliasesAt, Mergeable, MergedAliases;
    forall n | n in ai && n in bi ensures ai[n] == bi[n] {
      UnionHome(b, bi, c, ci, bc, bci, n);
    }
    CountsAddEverywhere(a, bc);
    forall s ensures Mergeable(AliasesAt(a, s), AliasesAt(b, s)) {
      UnionAt(b, c, bc, s);
      MergeableAlike(AliasesAt(a, s), AliasesAt(b, s), AliasesAt(c, s));
    }
    CountsAddEverywhere(a, b);
  }

  // ----- Intersection -----

  function CommonAliases(left: Aliases, right: Aliases): Aliases
    requires Mergeable(left, right)
  {
    map a | a in left.Keys * right.Keys :: Plus(left[a], right[a]).value
  }

  ghost predicate CommonGroup(l: Group, r: Group, u: Group) {
    u.end == l.end && Mergeable(l.aliases, r.aliases) && u.aliases == CommonAliases(l.aliases, r.aliases)
  }

  /** The start is on both sides with an alias in common. */
  ghost predicate Shared(l: Groups, r: Groups, s: Line) {
    s in l && s in r && l[s].aliases.Keys * r[s].aliases.Keys != {}
  }

  ghost predicate IsIntersection(l: Groups, r: Groups, u: Groups) {
    && (forall s :: s in u <==> Shared(l, r, s))
    && (forall s :: s in u ==> CommonGroup(l[s], r[s], u[s]))
  }

  ghost predicate IntersectionSoFar(l: Groups, r: Groups, done: set<Line>, u: Groups) {
    && (forall s :: s in u <==> s in l && (s in done ==> Shared(l, r, s)))
    && (forall s :: s in u && s !in done ==> u[s] == l[s])
    && (forall s :: s in u && s in done ==> CommonGroup(l[s], r[s], u[s]))
    && (forall s :: s in done && s in l && s in r ==> Mergeable(l[s].aliases, r[s].aliases))
  }

  lemma IntersectionDrop(l: Groups, r: Groups, done: set<Line>, u: Groups, s: Line)
    requires IntersectionSoFar(l, r, done, u) && s in l && !Shared(l, r, s)
    requires s in r ==> Mergeable(l[s].aliases, r[s].aliases)
    ensures IntersectionSoFar(l, r, done + {s}, u - {s})
  {
    hide Shared, CommonGroup, Mergeable;
  }

  lemma IntersectionKeep(l: Groups, r: Groups, done: set<Line>, u: Groups, s: Line, g: Group)
    requires IntersectionSoFar(l, r, done, u) && Shared(l, r, s) && CommonGroup(l[s], r[s], g)
    ensures IntersectionSoFar(l, r, done + {s}, (u - {s})[s := g])
  {
    hide Mergeable;
  }

  lemma IntersectionPending(l: Groups, r: Groups, done: set<Line>, u: Groups, s: Line)
    requires IntersectionSoFar(l, r, done, u) && s in l && s !in done
    ensures s in u && u[s] == l[s]
  {
    hide Shared, CommonGroup, Mergeable;
  }

  lemma IntersectionDone(l: Groups, r: Groups, done: set<Line>, u: Groups)
    requires IntersectionSoFar(l, r, done, u) && done == l.Keys
    ensures IsIntersection(l, r, u) && CountsAdd(l, r)
  {
    hide CommonGroup, Mergeable;
  }

  /** `intersect`: common aliases of common starts, with their counts added; a group without
      common aliases goes. It succeeds exactly when the common counts add up. */
  method Intersect(left: Table, right: Table) returns (error: Option<FunctionError>)
    requires left != right && left.Valid() && right.Valid()
    modifies left
    ensures left.Valid()
    ensures error.None? <==> CountsAdd(old(left.byStart), right.byStart)
    ensures error.None? ==> IsIntersection(old(left.byStart), right.byStart, left.byStart)
  {
    hide Coherent, IntersectionSoFar, IsIntersection, Mergeable, GroupValid, CommonGroup, Plus;
    ghost var l := left.byStart;
    var r := right.byStart;
    var todo := left.byStart.Keys;
    ghost var done: set<Line> := {};
    IntersectionStart(l, r);
    while todo != {}
      invariant left.Valid() && todo + done == l.Keys && todo !! done
      invariant IntersectionSoFar(l, r, done, left.byStart)
      decreases todo
    {
      var s :| s in todo;
      IntersectionPending(l, r, done, left.byStart, s);
      ghost var u := left.byStart;
      error := IntersectAt(left, r, s);
      if error.Some? { return; }
      if Shared(l, r, s) {
        IntersectionKeep(l, r, done, u, s, left.byStart[s]);
      } else {
        IntersectionDrop(l, r, done, u, s);
      }
      todo := todo - {s};
      done := done + {s};
    }
    assert done == l.Keys;
    IntersectionDone(l, r, done, left.byStart);
    error := None;
  }

  lemma IntersectionStart(l: Groups, r: Groups)
    ensures IntersectionSoFar(l, r, {}, l)
  {}

  /** One start of the intersection. */
  method IntersectAt(left: Table, r: Groups, s: Line) returns (error: Option<FunctionError>)
    requires left.Valid() && s in left.byStart
    modifies left
    ensures left.Valid()
    ensures error.None? <==> (s in r ==> Mergeable(old(left.byStart)[s].aliases, r[s].aliases))
    ensures error.None? ==>
              if Shared(old(left.byStart), r, s) then
                && s in left.byStart && left.byStart == (old(left.byStart) - {s})[s := left.byStart[s]]
                && CommonGroup(old(left.byStart)[s], r[s], left.byStart[s])
              else left.byStart == old(left.byStart) - {s}
  {
    hide Coherent, GroupValid, Plus;
    if s !in r {
      left.RemoveGroup(s);
      return None;
    }
    var group := left.byStart[s];
    if exists a :: a in group.aliases && a in r[s].aliases && Plus(group.aliases[a], r[s].aliases[a]).None? {
      return Some(CountAdd);
    }
    assert Mergeable(group.aliases, r[s].aliases);
    var common := CommonAliases(group.aliases, r[s].aliases);
    assert common.Keys == group.aliases.Keys * r[s].aliases.Keys;
    ghost var groups, index := left.byStart, left.byAlias;
    LeftBehind(groups, index, s);
    forall a | a in common ensures a in index && index[a] == s {
      AliasHome(groups, index, s, a);
    }
    left.RemoveGroup(s);
    if common.Keys == {} { return None; }
    var best := BestOf(common.Keys);
    BestIsValid(Group(s, group.end, common, best));
    error := left.InsertGroup(Group(s, group.end, common, best));
    assert error.None?;
  }

  lemma BestIsValid(g: Group)
    requires Best(g.aliases.Keys, g.representative)
    ensures GroupValid(g)
  {}

  // ----- Difference -----

  /** The aliases of a left group that the right table does not have at that start. */
  function Remaining(l: Groups, r: Groups, s: Line): set<Name>
    requires s in l
  {
    if s in r then l[s].aliases.Keys - r[s].aliases.Keys else l[s].aliases.Keys
  }

  ghost predicate IsDifference(l: Groups, r: Groups, u: Groups) {
    && (forall s :: s in u <==> s in l && Remaining(l, r, s) != {})
    && (forall s :: s in u ==> u[s].end == l[s].end && u[s].aliases.Keys == Remaining(l, r, s))
    && (forall s, a :: s in u && a in u[s].aliases ==> u[s].aliases[a] == l[s].aliases[a])
  }

  /** All aliases in `gone` have been removed. */
  ghost predicate DifferenceSoFar(l: Groups, li: Index, gone: set<Name>, u: Groups, ui: Index) {
    && (forall s :: s in u <==> s in l && l[s].aliases.Keys - gone != {})
    && (forall s :: s in u ==> u[s].end == l[s].end && u[s].aliases == l[s].aliases - gone)
    && ui == li - gone
  }

  lemma DifferenceStart(l: Groups, li: Index)
    requires Coherent(l, li)
    ensures DifferenceSoFar(l, li, {}, l, li)
  {
    hide Best;
    forall s | s in l ensures l[s].aliases.Keys - {} != {} && l[s].aliases - {} == l[s].aliases {
      HasRepresentative(l[s]);
      assert l[s].representative in l[s].aliases.Keys - {};
    }
    assert li - {} == li;
  }

  lemma HasRepresentative(g: Group)
    requires GroupValid(g)
    ensures g.representative in g.aliases
  {}

  lemma DifferenceStep(l: Groups, li: Index, gone: set<Name>, u: Groups, ui: Index, a: Name, v: Groups, count: Count)
    requires Coherent(l, li) && DifferenceSoFar(l, li, gone, u, ui) && a in ui && RemovedAt(u, v, ui[a], a, count)
    ensures DifferenceSoFar(l, li, gone + {a}, v, ui - {a})
  {
    hide Coherent;
    var start := ui[a];
    forall s | s in l && s != start
      ensures l[s].aliases - (gone + {a}) == l[s].aliases - gone
      ensures l[s].aliases.Keys - (gone + {a}) == l[s].aliases.Keys - gone
    {
      Elsewhere(l, li, gone, a, s);
    }
    AtHome(l[start].aliases, gone, u[start].aliases, a);
    assert ui - {a} == li - (gone + {a});
  }

  lemma Elsewhere(l: Groups, li: Index, gone: set<Name>, a: Name, s: Line)
    requires Coherent(l, li) && a in li && s in l && s != li[a]
    ensures l[s].aliases - (gone + {a}) == l[s].aliases - gone
    ensures l[s].aliases.Keys - (gone + {a}) == l[s].aliases.Keys - gone
  {
    AliasHome(l, li, s, a);
  }

  lemma AtHome(before: Aliases, gone: set<Name>, now: Aliases, a: Name)
    requires now == before - gone && a in now
    ensures before - (gone + {a}) == now - {a}
    ensures before.Keys - (gone + {a}) == now.Keys - {a}
    ensures now.Keys == {a} <==> now.Keys - {a} == {}
  {
    if now.Keys - {a} == {} {
      assert now.Keys == {a} + (now.Keys - {a});
    }
  }

  lemma DifferenceDone(l: Groups, li: Index, r: Groups, gone: set<Name>, u: Groups, ui: Index)
    requires Coherent(l, li) && DifferenceSoFar(l, li, gone, u, ui)
    requires forall a :: a in gone <==> a in li && li[a] in r && a in r[li[a]].aliases
    ensures IsDifference(l, r, u)
  {
    hide Best, GroupsValid;
    forall s | s in l ensures l[s].aliases.Keys - gone == Remaining(l, r, s) {
    }
  }

  /** `difference`: removes the aliases that the right table has at the same start. */
  method Difference(left: Table, right: Table)
    requires left != right && left.Valid() && right.Valid()
    modifies left
    ensures left.Valid() && IsDifference(old(left.byStart), right.byStart, left.byStart)
  {
    hide Coherent, DifferenceSoFar, IsDifference, RemovedAt;
    ghost var l, li := left.byStart, left.byAlias;
    var r := right.byStart;
    var todo := set a | a in left.byAlias && left.byAlias[a] in r && a in r[left.byAlias[a]].aliases;
    ghost var all, gone: set<Name> := todo, {};
    DifferenceStart(l, li);
    while todo != {}
      invariant left.Valid() && todo + gone == all && todo !! gone
      invariant DifferenceSoFar(l, li, gone, left.byStart, left.byAlias)
      decreases todo
    {
      var a :| a in todo;
      ghost var u, ui := left.byStart, left.byAlias;
      StillIndexed(l, li, gone, u, ui, a);
      var prior := left.RemoveAlias(a);
      DifferenceStep(l, li, gone, u, ui, a, left.byStart, prior.value);
      todo := todo - {a};
      gone := gone + {a};
    }
    assert gone == all;
    DifferenceDone(l, li, r, gone, left.byStart, left.byAlias);
  }

  lemma StillIndexed(l: Groups, li: Index, gone: set<Name>, u: Groups, ui: Index, a: Name)
    requires DifferenceSoFar(l, li, gone, u, ui) && a in li && a !in gone
    ensures a in ui
  {}

  // ----- How the operations fit together -----

  /** Intersection and difference divide the left aliases between them, alias by alias. */
  lemma IntersectionOrDifference(l: Groups, r: Groups, i: Groups, d: Groups, s: Line, a: Name)
    requires IsIntersection(l, r, i) && IsDifference(l, r, d)
    ensures var kept, left := s in i && a in i[s].aliases, s in d && a in d[s].aliases;
            && !(kept && left)
            && (kept || left <==> s in l && a in l[s].aliases)
  {
    hide Plus;
    if s in l && a in l[s].aliases {
      if s in r && a in r[s].aliases {
        assert a in l[s].aliases.Keys * r[s].aliases.Keys;
      } else {
        assert a in Remaining(l, r, s);
      }
    }
  }

  /** What a difference leaves has nothing in common with the right table any more. */
  lemma DifferenceIsDisjoint(l: Groups, r: Groups, d: Groups, i: Groups)
    requires IsDifference(l, r, d) && IsIntersection(d, r, i)
    ensures i == map[]
  {
    hide Plus;
    forall s | s in d && s in r ensures d[s].aliases.Keys * r[s].aliases.Keys == {} {
      assert d[s].aliases.Keys == l[s].aliases.Keys - r[s].aliases.Keys;
    }
    assert forall s :: !Shared(d, r, s);
  }
}
