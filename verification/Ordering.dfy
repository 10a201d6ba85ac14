/**
 Python's `sorted`: a stable sort, with the facts that make its result independent of the
 order the elements came in. Strings are ordered lexicographically by code point.
 */
module Ordering {

  function Min(a: int, b: int): int {
    if a < b then a else b
  }

  function Max(a: nat, b: nat): nat {
    if a < b then b else a
  }

  // ----- Orders -----

  ghost predicate IsOrder<T(!new)>(leq: (T, T) -> bool) {
    && (forall x, y :: leq(x, y) || leq(y, x))
    && (forall x, y, z :: leq(x, y) && leq(y, z) ==> leq(x, z))
  }

  /** Elements that compare equal both ways are equal, at least among those of `xs`. */
  ghost predicate Separates<T>(leq: (T, T) -> bool, xs: seq<T>) {
    forall x, y :: x in xs && y in xs && leq(x, y) && leq(y, x) ==> x == y
  }

  predicate LexLeq(a: string, b: string) {
    a == [] || (b != [] && (a[0] < b[0] || (a[0] == b[0] && LexLeq(a[1..], b[1..]))))
  }

  lemma {:induction false} LexTotal(a: string, b: string)
    ensures LexLeq(a, b) || LexLeq(b, a)
    ensures LexLeq(a, b) && LexLeq(b, a) ==> a == b
  {
    if a != [] && b != [] && a[0] == b[0] {
      LexTotal(a[1..], b[1..]);
      assert a == [a[0]] + a[1..] && b == [b[0]] + b[1..];
    }
  }

  lemma {:induction false} LexTransitive(a: string, b: string, c: string)
    requires LexLeq(a, b) && LexLeq(b, c)
    ensures LexLeq(a, c)
  {
    if a != [] && a[0] == b[0] == c[0] {
      LexTransitive(a[1..], b[1..], c[1..]);
    }
  }

  lemma LexIsOrder()
    ensures IsOrder(LexLeq) && forall xs :: Separates(LexLeq, xs)
  {
    hide LexLeq;
    forall x, y ensures LexLeq(x, y) || LexLeq(y, x) ensures LexLeq(x, y) && LexLeq(y, x) ==> x == y {
      LexTotal(x, y);
    }
    forall x, y, z | LexLeq(x, y) && LexLeq(y, z) ensures LexLeq(x, z) {
      LexTransitive(x, y, z);
    }
  }

  /** Tuples of strings, compared field by field. */
  predicate TupleLeq(a: seq<string>, b: seq<string>) {
    a == [] || (b != [] && if a[0] == b[0] then TupleLeq(a[1..], b[1..]) else LexLeq(a[0], b[0]))
  }

  lemma {:induction false} TupleTotal(a: seq<string>, b: seq<string>)
    ensures TupleLeq(a, b) || TupleLeq(b, a)
    ensures TupleLeq(a, b) && TupleLeq(b, a) ==> a == b
  {
    hide LexLeq;
    if a != [] && b != [] {
      LexTotal(a[0], b[0]);
      if a[0] == b[0] {
        TupleTotal(a[1..], b[1..]);
        assert a == [a[0]] + a[1..] && b == [b[0]] + b[1..];
      }
    }
  }

  lemma {:induction false} TupleTransitive(a: seq<string>, b: seq<string>, c: seq<string>)
    requires TupleLeq(a, b) && TupleLeq(b, c)
    ensures TupleLeq(a, c)
  {
    hide LexLeq;
    if a != [] {
      if a[0] == b[0] == c[0] {
        TupleTransitive(a[1..], b[1..], c[1..]);
      } else if a[0] != b[0] && b[0] != c[0] {
        LexTransitive(a[0], b[0], c[0]);
        LexTotal(a[0], b[0]);
      }
    }
  }

  lemma TupleIsOrder()
    ensures IsOrder(TupleLeq)
  {
    hide TupleLeq;
    forall x, y ensures TupleLeq(x, y) || TupleLeq(y, x) {
      TupleTotal(x, y);
    }
    forall x, y, z | TupleLeq(x, y) && TupleLeq(y, z) ensures TupleLeq(x, z) {
      TupleTransitive(x, y, z);
    }
  }

  /** The order of elements by a string key. */
  function ByKey<T>(key: T -> string): (T, T) -> bool {
    (x, y) => LexLeq(key(x), key(y))
  }

  lemma ByKeyIsOrder<T(!new)>(key: T -> string)
    ensures IsOrder(ByKey(key))
  {
    forall x, y ensures ByKey(key)(x, y) || ByKey(key)(y, x) {
      LexTotal(key(x), key(y));
    }
    forall x, y, z | ByKey(key)(x, y) && ByKey(key)(y, z) ensures ByKey(key)(x, z) {
      LexTransitive(key(x), key(y), key(z));
    }
  }

  // ----- Sorting -----

  /** `x` goes in front of the first element that is not below it, so equal keys keep their order. */
  function Insert<T>(x: T, xs: seq<T>, leq: (T, T) -> bool): seq<T> {
    if xs == [] || leq(x, xs[0]) then [x] + xs else [xs[0]] + Insert(x, xs[1..], leq)
  }

  function Sort<T>(xs: seq<T>, leq: (T, T) -> bool): seq<T> {
    if xs == [] then [] else Insert(xs[0], Sort(xs[1..], leq), leq)
  }

  ghost predicate SortedBy<T>(xs: seq<T>, leq: (T, T) -> bool) {
    forall i, j :: 0 <= i < j < |xs| ==> leq(xs[i], xs[j])
  }

  lemma {:induction false} InsertPermutes<T>(x: T, xs: seq<T>, leq: (T, T) -> bool)
    ensures multiset(Insert(x, xs, leq)) == multiset(xs) + multiset{x}
  {
    if xs != [] {
      assert xs == [xs[0]] + xs[1..];
      if !leq(x, xs[0]) {
        InsertPermutes(x, xs[1..], leq);
      }
    }
  }

  lemma {:induction false} SortPermutes<T>(xs: seq<T>, leq: (T, T) -> bool)
    ensures multiset(Sort(xs, leq)) == multiset(xs)
    ensures |Sort(xs, leq)| == |xs|
  {
    if xs != [] {
      assert xs == [xs[0]] + xs[1..];
      SortPermutes(xs[1..], leq);
      InsertPermutes(xs[0], Sort(xs[1..], leq), leq);
      assert |multiset(Sort(xs, leq))| == |multiset(xs)|;
    }
  }

  /** Sorting neither adds nor loses elements. */
  lemma SortMembers<T>(xs: seq<T>, leq: (T, T) -> bool)
    ensures forall x :: x in Sort(xs, leq) <==> x in xs
  {
    SortPermutes(xs, leq);
    forall x ensures x in Sort(xs, leq) <==> x in xs {
      assert x in multiset(Sort(xs, leq)) <==> x in multiset(xs);
    }
  }

  lemma {:induction false} InsertSorts<T(!new)>(x: T, xs: seq<T>, leq: (T, T) -> bool)
    requires IsOrder(leq) && SortedBy(xs, leq)
    ensures SortedBy(Insert(x, xs, leq), leq)
  {
    if xs != [] && !leq(x, xs[0]) {
      var rest := Insert(x, xs[1..], leq);
      InsertSorts(x, xs[1..], leq);
      InsertPermutes(x, xs[1..], leq);
      forall j | 0 <= j < |rest| ensures leq(xs[0], rest[j]) {
        assert rest[j] in multiset(rest);
        if rest[j] != x {
          assert rest[j] in multiset(xs[1..]);
          var k :| 0 <= k < |xs[1..]| && xs[1..][k] == rest[j];
          assert xs[k + 1] == rest[j];
        }
      }
    } else if xs != [] {
      forall j | 0 <= j < |xs| ensures leq(x, xs[j]) {
        assert j > 0 ==> leq(xs[0], xs[j]);
      }
    }
  }

  lemma {:induction false} SortSorts<T(!new)>(xs: seq<T>, leq: (T, T) -> bool)
    requires IsOrder(leq)
    ensures SortedBy(Sort(xs, leq), leq)
  {
    if xs != [] {
      SortSorts(xs[1..], leq);
      InsertSorts(xs[0], Sort(xs[1..], leq), leq);
    }
  }

  lemma LeastFirst<T(!new)>(xs: seq<T>, x: T, leq: (T, T) -> bool)
    requires IsOrder(leq) && SortedBy(xs, leq) && x in xs
    ensures leq(xs[0], x)
  {
    var j :| 0 <= j < |xs| && xs[j] == x;
    assert leq(xs[0], xs[0]);
  }

  lemma TailMultiset<T>(xs: seq<T>)
    requires xs != []
    ensures multiset(xs[1..]) == multiset(xs) - multiset{xs[0]}
  {
    assert xs == [xs[0]] + xs[1..];
  }

  lemma SameSize<T>(xs: seq<T>, ys: seq<T>)
    requires multiset(xs) == multiset(ys)
    ensures |xs| == |ys|
  {
    assert |xs| == |multiset(xs)| == |multiset(ys)| == |ys|;
  }

  lemma TailsAgree<T>(xs: seq<T>, ys: seq<T>)
    requires xs != [] && ys != [] && multiset(xs) == multiset(ys) && xs[0] == ys[0]
    ensures multiset(xs[1..]) == multiset(ys[1..])
  {
    TailMultiset(xs);
    TailMultiset(ys);
  }

  lemma SameTails<T>(xs: seq<T>, ys: seq<T>)
    requires xs != [] && ys != [] && xs[0] == ys[0] && xs[1..] == ys[1..]
    ensures xs == ys
  {
    assert xs == [xs[0]] + xs[1..] && ys == [ys[0]] + ys[1..];
  }

  lemma TailOrdered<T>(xs: seq<T>, leq: (T, T) -> bool)
    requires xs != []
    ensures SortedBy(xs, leq) ==> SortedBy(xs[1..], leq)
    ensures Separates(leq, xs) ==> Separates(leq, xs[1..])
  {}

  lemma HeadsAgree<T(!new)>(xs: seq<T>, ys: seq<T>, leq: (T, T) -> bool)
    requires IsOrder(leq) && SortedBy(xs, leq) && SortedBy(ys, leq)
    requires xs != [] && ys != [] && multiset(xs) == multiset(ys) && Separates(leq, xs)
    ensures xs[0] == ys[0]
  {
    hide IsOrder, SortedBy;
    assert xs[0] in multiset(ys) && ys[0] in multiset(xs);
    LeastFirst(xs, ys[0], leq);
    LeastFirst(ys, xs[0], leq);
  }

  /** A sorted arrangement of given elements is unique when the order tells them apart. */
  lemma {:induction false} SortedUnique<T(!new)>(xs: seq<T>, ys: seq<T>, leq: (T, T) -> bool)
    requires IsOrder(leq) && SortedBy(xs, leq) && SortedBy(ys, leq)
    requires multiset(xs) == multiset(ys) && Separates(leq, xs)
    ensures xs == ys
  {
    hide IsOrder, SortedBy, Separates;
    SameSize(xs, ys);
    if xs != [] {
      HeadsAgree(xs, ys, leq);
      TailsAgree(xs, ys);
      TailOrdered(xs, leq);
      TailOrdered(ys, leq);
      SortedUnique(xs[1..], ys[1..], leq);
      SameTails(xs, ys);
    }
  }

  /** `sorted` gives the same list for every arrangement of the same elements. */
  lemma SortCanonical<T(!new)>(xs: seq<T>, ys: seq<T>, leq: (T, T) -> bool)
    requires IsOrder(leq) && multiset(xs) == multiset(ys) && Separates(leq, xs)
    ensures Sort(xs, leq) == Sort(ys, leq)
  {
    SortPermutes(xs, leq);
    SortPermutes(ys, leq);
    SortSorts(xs, leq);
    SortSorts(ys, leq);
    SortMembers(xs, leq);
    SortedUnique(Sort(xs, leq), Sort(ys, leq), leq);
  }

  /** Sorting a sorted list changes nothing, whatever ties it has. */
  lemma {:induction false} SortOfSorted<T>(xs: seq<T>, leq: (T, T) -> bool)
    requires SortedBy(xs, leq)
    ensures Sort(xs, leq) == xs
  {
    if xs != [] {
      SortOfSorted(xs[1..], leq);
      assert xs == [xs[0]] + xs[1..];
    }
  }

  // ----- Distinct lists -----

  ghost predicate Distinct<T>(xs: seq<T>) {
    forall i, j :: 0 <= i < j < |xs| ==> xs[i] != xs[j]
  }

  /** `len(xs) == len(set(xs))` says that the elements differ. */
  lemma {:induction false} DistinctSize<T>(xs: seq<T>)
    ensures |set x | x in xs| <= |xs|
    ensures |set x | x in xs| == |xs| <==> Distinct(xs)
  {
    if xs != [] {
      var init, last := xs[..|xs| - 1], xs[|xs| - 1];
      DistinctSize(init);
      DistinctSnoc(xs);
      assert xs == init + [last];
      assert (set x | x in xs) == (set x | x in init) + {last};
    }
  }

  lemma DistinctSnoc<T>(xs: seq<T>)
    requires xs != []
    ensures Distinct(xs) <==> Distinct(xs[..|xs| - 1]) && xs[|xs| - 1] !in xs[..|xs| - 1]
  {}

  lemma {:induction false} DistinctCount<T>(xs: seq<T>, x: T)
    requires Distinct(xs)
    ensures multiset(xs)[x] == if x in xs then 1 else 0
  {
    if xs != [] {
      var init := xs[..|xs| - 1];
      DistinctCount(init, x);
      assert xs == init + [xs[|xs| - 1]];
    }
  }

  lemma DistinctPermutes<T>(xs: seq<T>, ys: seq<T>)
    requires multiset(xs) == multiset(ys)
    ensures Distinct(xs) <==> Distinct(ys)
    ensures forall x :: x in xs <==> x in ys
  {
    hide Distinct;
    DistinctSize(xs);
    DistinctSize(ys);
    assert |xs| == |multiset(xs)| == |multiset(ys)| == |ys|;
    forall x ensures x in xs <==> x in ys {
      assert x in multiset(xs) <==> x in multiset(ys);
    }
    assert (set x | x in xs) == (set x | x in ys);
  }

  // ----- Sets in order -----

  /** `sorted` of a set, or the keys of an ordered map. */
  method SortedList(ids: set<string>) returns (xs: seq<string>)
    ensures SortedBy(xs, LexLeq) && Distinct(xs) && |xs| == |ids|
    ensures forall x :: x in xs <==> x in ids
  {
    xs := [];
    var rest := ids;
    while rest != {}
      invariant Distinct(xs) && rest <= ids && |xs| + |rest| == |ids|
      invariant forall x :: x in xs <==> x in ids && x !in rest
      decreases rest
    {
      var x :| x in rest;
      xs := xs + [x];
      rest := rest - {x};
    }
    xs := ListSorted(xs);
  }

  method ListSorted(list: seq<string>) returns (xs: seq<string>)
    requires Distinct(list)
    ensures SortedBy(xs, LexLeq) && Distinct(xs) && |xs| == |list|
    ensures forall x :: x in xs <==> x in list
  {
    hide Sort, LexLeq, IsOrder, Distinct;
    xs := Sort(list, LexLeq);
    SortPermutes(list, LexLeq);
    SortMembers(list, LexLeq);
    LexIsOrder();
    SortSorts(list, LexLeq);
    DistinctPermutes(list, xs);
  }

  /** `require_sorted_unique`: the keys equal their sorted list and are as many as their set. */
  method SortedAndUnique(keys: seq<seq<string>>) returns (ok: bool)
    ensures ok <==> SortedBy(keys, TupleLeq) && Distinct(keys)
  {
    hide Sort, TupleLeq, SortedBy, Distinct, IsOrder;
    TupleIsOrder();
    SortSorts(keys, TupleLeq);
    if SortedBy(keys, TupleLeq) { SortOfSorted(keys, TupleLeq); }
    DistinctSize(keys);
    ok := keys == Sort(keys, TupleLeq) && |keys| == |set k | k in keys|;
  }
}
