/** List comprehensions with a filter, and Python dictionaries in insertion order. */
module Sequences {
  import opened Wrappers

  // ----- [f(x) for x in xs if ...] -----

  function Collect<A, B>(xs: seq<A>, f: A -> Option<B>): seq<B> {
    if xs == [] then []
    else (if f(xs[0]).Some? then [f(xs[0]).value] else []) + Collect(xs[1..], f)
  }

  lemma {:induction false} CollectAppend<A, B>(xs: seq<A>, ys: seq<A>, f: A -> Option<B>)
    ensures Collect(xs + ys, f) == Collect(xs, f) + Collect(ys, f)
  {
    if xs == [] {
      assert xs + ys == ys;
    } else {
      var all := xs + ys;
      assert all[1..] == xs[1..] + ys && all[0] == xs[0];
      CollectAppend(xs[1..], ys, f);
      var head := if f(xs[0]).Some? then [f(xs[0]).value] else [];
      assert Collect(all, f) == head + Collect(all[1..], f);
      assert Collect(xs, f) == head + Collect(xs[1..], f);
    }
  }

  lemma CollectEmpty<A, B>(f: A -> Option<B>)
    ensures Collect([], f) == []
  {}

  /** One more element at the end of the source adds what it maps to at the end of the result. */
  lemma CollectNext<A, B>(xs: seq<A>, n: nat, f: A -> Option<B>)
    requires n < |xs|
    ensures Collect(xs[..n + 1], f) == Collect(xs[..n], f) + if f(xs[n]).Some? then [f(xs[n]).value] else []
  {
    assert xs[..n + 1] == xs[..n] + [xs[n]];
    CollectAppend(xs[..n], [xs[n]], f);
    assert [xs[n]][1..] == [];
  }

  lemma {:induction false} CollectMembers<A, B>(xs: seq<A>, f: A -> Option<B>, y: B)
    ensures y in Collect(xs, f) <==> exists x :: x in xs && f(x) == Some(y)
  {
    if xs != [] {
      CollectMembers(xs[1..], f, y);
      assert forall x :: x in xs <==> x == xs[0] || x in xs[1..];
    }
  }

  lemma TakeOut<A>(xs: seq<A>, ys: seq<A>) returns (left: seq<A>, right: seq<A>)
    requires xs != [] && multiset(xs) == multiset(ys)
    ensures ys == left + [xs[0]] + right && multiset(xs[1..]) == multiset(left + right)
  {
    assert xs[0] in multiset(ys);
    var i :| 0 <= i < |ys| && ys[i] == xs[0];
    left, right := ys[..i], ys[i + 1..];
    assert ys == left + [xs[0]] + right;
    Without([], xs[0], xs[1..], xs);
    Without(left, xs[0], right, ys);
    assert [] + xs[1..] == xs[1..];
  }

  lemma Without<A>(left: seq<A>, x: A, right: seq<A>, whole: seq<A>)
    requires |whole| == |left| + 1 + |right|
    requires whole[..|left|] == left && whole[|left|] == x && whole[|left| + 1..] == right
    ensures multiset(left + right) == multiset(whole) - multiset{x}
  {
    assert whole == left + [x] + right;
    assert multiset(left + right) == multiset(left) + multiset(right);
  }

  /** A comprehension yields the same elements in whatever order its source comes. */
  lemma {:induction false} CollectPermutes<A, B>(xs: seq<A>, ys: seq<A>, f: A -> Option<B>)
    requires multiset(xs) == multiset(ys)
    ensures multiset(Collect(xs, f)) == multiset(Collect(ys, f))
  {
    if xs == [] {
      assert |multiset(ys)| == 0;
    } else {
      var left, right := TakeOut(xs, ys);
      CollectPermutes(xs[1..], left + right, f);
      CollectAppend(left, right, f);
      CollectAppend(left + [xs[0]], right, f);
      CollectAppend(left, [xs[0]], f);
      var one := Collect([xs[0]], f);
      assert xs == [xs[0]] + xs[1..];
      CollectAppend([xs[0]], xs[1..], f);
      assert Collect(xs, f) == one + Collect(xs[1..], f);
    }
  }

  // ----- Dictionaries -----

  type Dict = seq<(string, string)>

  /** `d[key] = value`: a new key goes last, an old one keeps its place. */
  function Put(d: Dict, key: string, value: string): Dict {
    if d == [] then [(key, value)]
    else if d[0].0 == key then [(key, value)] + d[1..]
    else [d[0]] + Put(d[1..], key, value)
  }

  /** `{k: v for k, v in items}`. */
  function FromItems(items: Dict): Dict {
    if items == [] then []
    else
      var last := items[|items| - 1];
      Put(FromItems(items[..|items| - 1]), last.0, last.1)
  }

  function Get(d: Dict, key: string): Option<string> {
    if d == [] then None else if d[0].0 == key then Some(d[0].1) else Get(d[1..], key)
  }

  ghost predicate KeysDistinct(d: Dict) {
    forall i, j :: 0 <= i < j < |d| ==> d[i].0 != d[j].0
  }

  ghost predicate HasKey(d: Dict, key: string) {
    exists i :: 0 <= i < |d| && d[i].0 == key
  }

  lemma {:induction false} PutNew(d: Dict, key: string, value: string)
    requires !HasKey(d, key)
    ensures Put(d, key, value) == d + [(key, value)]
  {
    if d != [] {
      assert d[0].0 != key;
      assert forall i :: 0 <= i < |d[1..]| ==> d[1..][i] == d[i + 1];
      PutNew(d[1..], key, value);
      assert d == [d[0]] + d[1..];
    }
  }

  /** With distinct keys a comprehension keeps its items as they come. */
  lemma {:induction false} FromDistinctItems(items: Dict)
    requires KeysDistinct(items)
    ensures FromItems(items) == items
  {
    if items != [] {
      var init, last := items[..|items| - 1], items[|items| - 1];
      FromDistinctItems(init);
      assert !HasKey(init, last.0);
      PutNew(init, last.0, last.1);
      assert items == init + [last];
    }
  }

  lemma {:induction false} GetDistinct(d: Dict, key: string, value: string)
    requires KeysDistinct(d)
    ensures Get(d, key) == Some(value) <==> (key, value) in d
  {
    if d != [] {
      var t := d[1..];
      assert forall i :: 0 <= i < |t| ==> t[i] == d[i + 1];
      GetDistinct(t, key, value);
      assert (key, value) in d <==> d[0] == (key, value) || (key, value) in t;
    }
  }

  /** Dictionaries with the same distinct items answer every lookup alike. */
  lemma GetPermutes(d: Dict, d': Dict, key: string)
    requires KeysDistinct(d) && KeysDistinct(d') && multiset(d) == multiset(d')
    ensures Get(d, key) == Get(d', key)
  {
    forall value ensures (key, value) in d <==> (key, value) in d' {
      assert (key, value) in multiset(d) <==> (key, value) in multiset(d');
    }
    match Get(d, key)
    case Some(value) =>
      GetDistinct(d, key, value);
      GetDistinct(d', key, value);
    case None =>
      if Get(d', key).Some? {
        GetDistinct(d', key, Get(d', key).value);
        GetDistinct(d, key, Get(d', key).value);
      }
  }
}
