/** The union of three branch lines in both bracketings: the same blocks in the same order, and the
    same edges exactly where the counters of three partners add up alike. */
module BranchBrackets {
  import opened Wrappers
  import opened Counters
  import opened Branches
  import opened BranchAlgebra

  // ----- The order of signatures -----

  function Number(s: seq<Signature>, x: Signature): nat {
    multiset(s)[x]
  }

  /** The signatures of `s`, numbered on from `before`, that go beyond the occurrences in `base`. */
  function Rest(before: seq<Signature>, s: seq<Signature>, base: seq<Signature>): seq<Signature> {
    if s == [] then []
    else
      var init, last := s[..|s| - 1], s[|s| - 1];
      Rest(before, init, base) + if Number(before + init, last) < Number(base, last) then [] else [last]
  }

  lemma RestSnoc(before: seq<Signature>, s: seq<Signature>, x: Signature, base: seq<Signature>)
    ensures Rest(before, s + [x], base) ==
            Rest(before, s, base) + if Number(before + s, x) < Number(base, x) then [] else [x]
  {
    assert (s + [x])[..|s|] == s;
  }

  lemma {:induction false} RestAppend(before: seq<Signature>, s: seq<Signature>, t: seq<Signature>,
                                      base: seq<Signature>)
    ensures Rest(before, s + t, base) == Rest(before, s, base) + Rest(before + s, t, base)
  {
    hide Rest, Number;
    if t == [] {
      assert s + t == s;
      RestNone(before + s, base);
    } else {
      var init, last := t[..|t| - 1], t[|t| - 1];
      RestAppend(before, s, init, base);
      assert s + t == (s + init) + [last] && t == init + [last];
      RestSnoc(before, s + init, last, base);
      RestSnoc(before + s, init, last, base);
      assert before + (s + init) == (before + s) + init;
    }
  }

  lemma RestNone(before: seq<Signature>, base: seq<Signature>)
    ensures Rest(before, [], base) == []
  {}

  lemma NumberAppend(s: seq<Signature>, t: seq<Signature>, x: Signature)
    ensures Number(s + t, x) == Number(s, x) + Number(t, x)
  {}

  lemma NumberOne(x: Signature, y: Signature)
    ensures Number([x], y) == if x == y then 1 else 0
    ensures Number([], y) == 0
  {}

  lemma {:induction false} RestNumber(s: seq<Signature>, base: seq<Signature>, x: Signature)
    ensures Number(Rest([], s, base), x) == Beyond(Number(s, x), Number(base, x))
  {
    hide Number, Rest;
    if s == [] {
      RestNone([], base);
      NumberOne(x, x);
    } else {
      var init, last := s[..|s| - 1], s[|s| - 1];
      RestNumber(init, base, x);
      assert s == init + [last] && [] + init == init;
      RestSnoc([], init, last, base);
      NumberAppend(init, [last], x);
      NumberAppend(Rest([], init, base), [last], x);
      NumberOne(last, x);
      assert Rest([], init, base) + [] == Rest([], init, base);
    }
  }

  /** What three lists leave over does not depend on the bracketing. */
  lemma {:induction false} RestTwice(l: seq<Signature>, m: seq<Signature>, r: seq<Signature>)
    ensures Rest([], r, l + Rest([], m, l)) == Rest(m, Rest([], r, m), l)
  {
    hide Number, Rest;
    var both := l + Rest([], m, l);
    if r == [] {
      RestNone([], both);
      RestNone([], m);
      RestNone(m, l);
    } else {
      var init, x := r[..|r| - 1], r[|r| - 1];
      RestTwice(l, m, init);
      assert r == init + [x] && [] + init == init;
      RestSnoc([], init, x, both);
      RestSnoc([], init, x, m);
      var inner := Rest([], init, m);
      RestSnoc(m, inner, x, l);
      NumberAppend(l, Rest([], m, l), x);
      NumberAppend(m, inner, x);
      RestNumber(m, l, x);
      RestNumber(init, m, x);
      assert inner + [] == inner;
    }
  }

  lemma {:induction false} UnmatchedSignatures(l: seq<Block>, r: seq<Block>, n: nat)
    requires n <= |l|
    ensures Signatures(Unmatched(l, r, n)) == Rest([], Signatures(l)[..n], Signatures(r))
  {
    hide Signatures, Rest, Occurrences;
    if n == 0 {
      RestNone([], Signatures(r));
      NoSignatures();
      UnmatchedNone(l, r);
    } else {
      var init, x := Signatures(l)[..n - 1], l[n - 1].signature;
      UnmatchedSignatures(l, r, n - 1);
      UnmatchedNext(l, r, n - 1);
      assert Signatures(l)[..n] == init + [x] && [] + init == init;
      RestSnoc([], init, x, Signatures(r));
      OccurrencesAre(l[..n - 1], x);
      OccurrencesAre(r, x);
      SignaturesPrefix(l, n - 1);
      SignaturesSnoc(Unmatched(l, r, n - 1), l[n - 1]);
      assert Unmatched(l, r, n - 1) + [] == Unmatched(l, r, n - 1);
    }
  }

  lemma NoSignatures()
    ensures Signatures([]) == []
  {}

  lemma SignaturesPrefix(l: seq<Block>, n: nat)
    requires n <= |l|
    ensures Signatures(l[..n]) == Signatures(l)[..n]
  {}

  lemma SignaturesSnoc(l: seq<Block>, b: Block)
    ensures Signatures(l + [b]) == Signatures(l) + [b.signature]
  {}

  lemma UnionSignatures(l: seq<Block>, r: seq<Block>)
    requires BlocksValid(l) && BlocksValid(r) && AllAdd(l, r)
    ensures Signatures(UnionOf(l, r)) == Signatures(l) + Rest([], Signatures(r), Signatures(l))
  {
    hide Rest, Renumbered, BlocksValid, LeftMerged, Unmatched, AllAdd;
    LeftMergedFacts(l, r);
    GatheredValid(l, r);
    RenumberedSignatures(Gathered(l, r));
    UnmatchedSignatures(r, l, |r|);
    assert Signatures(r)[..|r|] == Signatures(r);
    var merged, rest := LeftMerged(l, r), Unmatched(r, l, |r|);
    assert Signatures(merged + rest) == Signatures(merged) + Signatures(rest);
  }

  /** What a union needs and gives. */
  ghost predicate IsUnion(l: seq<Block>, r: seq<Block>, u: seq<Block>) {
    AllAdd(l, r) && u == UnionOf(l, r)
  }

  lemma UnionValid(l: seq<Block>, r: seq<Block>, u: seq<Block>)
    requires IsUnion(l, r, u)
    ensures LineValid(u)
  {
    hide LineValid, AllAdd;
    ResultsValid(l, r);
  }

  /** Both bracketings have the same signatures in the same order. */
  lemma SameOrder(l: seq<Block>, m: seq<Block>, r: seq<Block>,
                  lm: seq<Block>, mr: seq<Block>, u: seq<Block>, v: seq<Block>)
    requires BlocksValid(l) && BlocksValid(m) && BlocksValid(r)
    requires IsUnion(l, m, lm) && IsUnion(lm, r, u) && IsUnion(m, r, mr) && IsUnion(l, mr, v)
    ensures Signatures(u) == Signatures(v)
  {
    hide Rest, BlocksValid, Signatures, UnionOf, AllAdd;
    BlocksOf(l, m, lm);
    BlocksOf(m, r, mr);
    UnionSignatures(l, m);
    UnionSignatures(lm, r);
    UnionSignatures(m, r);
    UnionSignatures(l, mr);
    var sl, sm, sr := Signatures(l), Signatures(m), Signatures(r);
    RestAppend([], sm, Rest([], sr, sm), sl);
    assert [] + sm == sm;
    RestTwice(sl, sm, sr);
  }

  lemma BlocksOf(l: seq<Block>, r: seq<Block>, u: seq<Block>)
    requires IsUnion(l, r, u)
    ensures BlocksValid(u)
  {
    hide IsUnion, BlocksValid;
    UnionValid(l, r, u);
    LineBlocks(u);
  }

  lemma LineBlocks(u: seq<Block>)
    requires LineValid(u)
    ensures BlocksValid(u)
  {}

  // ----- The edges of one occurrence -----

  /** The edges of occurrence `n` of a signature, if there are so many. */
  ghost function EdgesAt(blocks: seq<Block>, signature: Signature, n: nat): Option<seq<Edge>> {
    if exists i :: Nth(blocks, signature, n, i) then
      var i :| Nth(blocks, signature, n, i);
      Some(blocks[i].edges)
    else None
  }

  lemma EdgesAtIs(blocks: seq<Block>, signature: Signature, n: nat, i: nat)
    requires Nth(blocks, signature, n, i)
    ensures i < |blocks| && EdgesAt(blocks, signature, n) == Some(blocks[i].edges)
  {
    hide Occurrences;
    forall j | Nth(blocks, signature, n, j) ensures j == i {
      NthOnce(blocks, signature, n, i, j);
    }
  }

  lemma EdgesAtNone(blocks: seq<Block>, signature: Signature, n: nat)
    requires Occurrences(blocks, signature) <= n
    ensures EdgesAt(blocks, signature, n) == None
  {
    hide Occurrences, Nth;
    if i :| Nth(blocks, signature, n, i) {
      NthInside(blocks, signature, n, i);
    }
  }

  /** The edges of a union: merged, or those of the one side that has any. */
  ghost predicate Joins(x: Option<seq<Edge>>, y: Option<seq<Edge>>, u: Option<seq<Edge>>) {
    && (x.None? ==> u == y) && (y.None? ==> u == x)
    && (x.Some? && y.Some? ==> EdgesAdd(x.value, y.value) && u == Some(MergedEdges(x.value, y.value)))
  }

  lemma UnionEdgesAt(l: seq<Block>, r: seq<Block>, u: seq<Block>, signature: Signature, n: nat)
    requires BlocksValid(l) && BlocksValid(r) && IsUnion(l, r, u)
    ensures Joins(EdgesAt(l, signature, n), EdgesAt(r, signature, n), EdgesAt(u, signature, n))
  {
    hide Occurrences, EdgesAt, BlocksValid, AllAdd, EdgesAdd, MergedEdges, Renumbered, Gathered, Nth;
    if n < Occurrences(u, signature) {
      var i := Reach(u, signature, n);
      ReachedIs(u, signature, n, i);
      EdgesAtIs(u, signature, n, i);
      GatheredNth(l, r, u, signature, n, i);
      var a, b := NthOfUnion(l, r, i);
      SourceEdges(l, signature, n, a);
      SourceEdges(r, signature, n, b);
    } else {
      Multiplicities(l, r, signature);
      EdgesAtNone(u, signature, n);
      EdgesAtNone(l, signature, n);
      EdgesAtNone(r, signature, n);
    }
  }

  lemma ReachedIs(blocks: seq<Block>, signature: Signature, n: nat, i: nat)
    requires i < |blocks| && blocks[i].signature == signature && Occurrences(blocks[..i], signature) == n
    ensures Nth(blocks, signature, n, i)
  {}

  /** An occurrence before renumbering. */
  lemma GatheredNth(l: seq<Block>, r: seq<Block>, u: seq<Block>, signature: Signature, n: nat, i: nat)
    requires BlocksValid(l) && BlocksValid(r) && IsUnion(l, r, u) && Nth(u, signature, n, i)
    ensures i < |u| == |Gathered(l, r)| && Gathered(l, r)[i].edges == u[i].edges
    ensures Gathered(l, r)[i].signature == signature && Occurrences(Gathered(l, r)[..i], signature) == n
  {
    hide Occurrences, BlocksValid, AllAdd, LeftMerged, Unmatched, Renumbered;
    GatheredValid(l, r);
    RenumberedFacts(Gathered(l, r));
    RenumberedLength(Gathered(l, r));
    RenumberedPrefix(Gathered(l, r), i, signature);
  }

  lemma RenumberedLength(blocks: seq<Block>)
    ensures |Renumbered(blocks)| == |blocks|
  {}

  lemma SourceEdges(blocks: seq<Block>, signature: Signature, n: nat, i: Option<nat>)
    requires i.Some? ==> Nth(blocks, signature, n, i.value)
    requires i.None? ==> Occurrences(blocks, signature) <= n
    ensures i.None? ==> EdgesAt(blocks, signature, n) == None
    ensures i.Some? ==> i.value < |blocks| && EdgesAt(blocks, signature, n) == Some(blocks[i.value].edges)
  {
    hide Occurrences, EdgesAt, Nth;
    if i.Some? {
      EdgesAtIs(blocks, signature, n, i.value);
    } else {
      EdgesAtNone(blocks, signature, n);
    }
  }

  // ----- Three edges -----

  /** Counters of three evaluated edges add up alike in both bracketings. */
  ghost predicate TakenAgree(a: Taken, b: Taken, c: Taken) {
    a.Evaluated? && b.Evaluated? && c.Evaluated? ==>
      LeftSum(a.count, b.count, c.count) == RightSum(a.count, b.count, c.count)
  }

  ghost predicate EdgesAgree(x: seq<Edge>, y: seq<Edge>, z: seq<Edge>) {
    forall k :: 0 <= k < |x| && k < |y| && k < |z| ==> TakenAgree(x[k].taken, y[k].taken, z[k].taken)
  }

  lemma EdgeBrackets(a: Edge, b: Edge, c: Edge)
    requires MergeTaken(a.taken, b.taken).Some? && MergeTaken(MergeEdge(a, b).taken, c.taken).Some?
    requires MergeTaken(b.taken, c.taken).Some? && MergeTaken(a.taken, MergeEdge(b, c).taken).Some?
    ensures MergeEdge(MergeEdge(a, b), c) == MergeEdge(a, MergeEdge(b, c)) <==> TakenAgree(a.taken, b.taken, c.taken)
  {
    hide Plus;
  }

  lemma EdgesBrackets(x: seq<Edge>, y: seq<Edge>, z: seq<Edge>)
    requires |x| == |y| == |z| && EdgesAdd(x, y) && EdgesAdd(MergedEdges(x, y), z)
    requires EdgesAdd(y, z) && EdgesAdd(x, MergedEdges(y, z))
    ensures MergedEdges(MergedEdges(x, y), z) == MergedEdges(x, MergedEdges(y, z)) <==> EdgesAgree(x, y, z)
  {
    hide MergeTaken, TakenAgree, MergeEdge;
    var xy, yz := MergedEdges(x, y), MergedEdges(y, z);
    var u, v := MergedEdges(xy, z), MergedEdges(x, yz);
    forall k | 0 <= k < |x| ensures u[k] == v[k] <==> TakenAgree(x[k].taken, y[k].taken, z[k].taken) {
      assert MergeTaken(x[k].taken, y[k].taken).Some? && MergeTaken(xy[k].taken, z[k].taken).Some?;
      assert MergeTaken(y[k].taken, z[k].taken).Some? && MergeTaken(x[k].taken, yz[k].taken).Some?;
      EdgeBrackets(x[k], y[k], z[k]);
    }
    if u == v {
      forall k | 0 <= k < |x| ensures TakenAgree(x[k].taken, y[k].taken, z[k].taken) {
        assert u[k] == v[k];
      }
    }
  }

  ghost predicate AllThree(x: Option<seq<Edge>>, y: Option<seq<Edge>>, z: Option<seq<Edge>>) {
    x.Some? && y.Some? && z.Some? ==> EdgesAgree(x.value, y.value, z.value)
  }

  lemma JoinsBrackets(x: Option<seq<Edge>>, y: Option<seq<Edge>>, z: Option<seq<Edge>>,
                      xy: Option<seq<Edge>>, yz: Option<seq<Edge>>, u: Option<seq<Edge>>, v: Option<seq<Edge>>)
    requires Joins(x, y, xy) && Joins(xy, z, u) && Joins(y, z, yz) && Joins(x, yz, v)
    requires x.Some? && y.Some? && z.Some? ==> |x.value| == |y.value| == |z.value|
    ensures u == v <==> AllThree(x, y, z)
  {
    hide EdgesAdd, MergedEdges, EdgesAgree;
    if x.Some? && y.Some? && z.Some? {
      EdgesBrackets(x.value, y.value, z.value);
    }
  }

  lemma WidthAt(blocks: seq<Block>, signature: Signature, n: nat)
    requires BlocksValid(blocks) && EdgesAt(blocks, signature, n).Some?
    ensures |EdgesAt(blocks, signature, n).value| == |signature|
  {
    hide Occurrences;
    var i :| Nth(blocks, signature, n, i);
    EdgesAtIs(blocks, signature, n, i);
    assert BlockValid(blocks[i]);
  }

  // ----- Whole lines -----

  /** Valid lines with the same signatures are the same exactly when every occurrence is. */
  lemma SameLines(u: seq<Block>, v: seq<Block>)
    requires LineValid(u) && LineValid(v) && Signatures(u) == Signatures(v)
    ensures u == v <==> forall signature, n: nat :: EdgesAt(u, signature, n) == EdgesAt(v, signature, n)
  {
    hide Occurrences, EdgesAt, BlockValid;
    assert |Signatures(u)| == |u| && |Signatures(v)| == |v|;
    if forall signature, n: nat :: EdgesAt(u, signature, n) == EdgesAt(v, signature, n) {
      forall i | 0 <= i < |u| ensures u[i] == v[i] {
        var signature := u[i].signature;
        assert Signatures(u)[i] == Signatures(v)[i];
        SamePrefix(u, v, i, signature);
        var n := Occurrences(u[..i], signature);
        EdgesAtIs(u, signature, n, i);
        EdgesAtIs(v, signature, n, i);
        assert EdgesAt(u, signature, n) == EdgesAt(v, signature, n);
      }
    }
  }

  lemma SamePrefix(u: seq<Block>, v: seq<Block>, i: nat, signature: Signature)
    requires Signatures(u) == Signatures(v) && i <= |u| && i <= |v|
    ensures Occurrences(u[..i], signature) == Occurrences(v[..i], signature)
  {
    hide Occurrences, Signatures;
    SignaturesPrefix(u, i);
    SignaturesPrefix(v, i);
    SameSignatures(u[..i], v[..i], signature);
  }

  /** Three partners add up alike. */
  ghost predicate PartnersAgree(l: seq<Block>, m: seq<Block>, r: seq<Block>) {
    forall i, j, k :: Paired(l, m, i, j) && Paired(m, r, j, k) ==> EdgesAgree(l[i].edges, m[j].edges, r[k].edges)
  }

  lemma PartnersAre(l: seq<Block>, m: seq<Block>, r: seq<Block>)
    ensures PartnersAgree(l, m, r) <==>
            forall signature, n: nat ::
              AllThree(EdgesAt(l, signature, n), EdgesAt(m, signature, n), EdgesAt(r, signature, n))
  {
    hide Occurrences, EdgesAt, EdgesAgree;
    if PartnersAgree(l, m, r) {
      forall signature, n: nat
        ensures AllThree(EdgesAt(l, signature, n), EdgesAt(m, signature, n), EdgesAt(r, signature, n))
      {
        var a := Place(l, signature, n);
        var b := Place(m, signature, n);
        var c := Place(r, signature, n);
        if a.Some? && b.Some? && c.Some? {
          assert Paired(l, m, a.value, b.value) && Paired(m, r, b.value, c.value);
        }
      }
    }
    if forall signature, n: nat ::
         AllThree(EdgesAt(l, signature, n), EdgesAt(m, signature, n), EdgesAt(r, signature, n))
    {
      forall i, j, k | Paired(l, m, i, j) && Paired(m, r, j, k)
        ensures EdgesAgree(l[i].edges, m[j].edges, r[k].edges)
      {
        var signature, n := l[i].signature, Occurrences(l[..i], l[i].signature);
        EdgesAtIs(l, signature, n, i);
        EdgesAtIs(m, signature, n, j);
        EdgesAtIs(r, signature, n, k);
        assert AllThree(EdgesAt(l, signature, n), EdgesAt(m, signature, n), EdgesAt(r, signature, n));
      }
    }
  }

  /** Where an occurrence is. */
  lemma Place(blocks: seq<Block>, signature: Signature, n: nat) returns (i: Option<nat>)
    ensures i.Some? <==> EdgesAt(blocks, signature, n).Some?
    ensures i.Some? ==>
              Nth(blocks, signature, n, i.value) && EdgesAt(blocks, signature, n) == Some(blocks[i.value].edges)
  {
    hide Occurrences, EdgesAt;
    if n < Occurrences(blocks, signature) {
      var j := Reach(blocks, signature, n);
      EdgesAtIs(blocks, signature, n, j);
      i := Some(j);
    } else {
      EdgesAtNone(blocks, signature, n);
      i := None;
    }
  }

  /** The two bracketings of a union of three lines have the same blocks in the same order, with the
      same kinds; they are the same line exactly when the counters of three partners add up alike,
      edge by edge. */
  lemma UnionAssociatesIff(l: seq<Block>, m: seq<Block>, r: seq<Block>,
                           lm: seq<Block>, mr: seq<Block>, u: seq<Block>, v: seq<Block>)
    requires BlocksValid(l) && BlocksValid(m) && BlocksValid(r)
    requires IsUnion(l, m, lm) && IsUnion(lm, r, u) && IsUnion(m, r, mr) && IsUnion(l, mr, v)
    ensures Signatures(u) == Signatures(v)
    ensures u == v <==> PartnersAgree(l, m, r)
  {
    hide IsUnion, BlocksValid, LineValid, EdgesAt, Signatures, PartnersAgree, AllThree, Joins;
    SameOrder(l, m, r, lm, mr, u, v);
    UnionValid(lm, r, u);
    UnionValid(l, mr, v);
    SameLines(u, v);
    PartnersAre(l, m, r);
    forall signature, n: nat
      ensures EdgesAt(u, signature, n) == EdgesAt(v, signature, n) <==>
              AllThree(EdgesAt(l, signature, n), EdgesAt(m, signature, n), EdgesAt(r, signature, n))
    {
      BracketsAt(l, m, r, lm, mr, u, v, signature, n);
    }
  }

  lemma BracketsAt(l: seq<Block>, m: seq<Block>, r: seq<Block>,
                   lm: seq<Block>, mr: seq<Block>, u: seq<Block>, v: seq<Block>,
                   signature: Signature, n: nat)
    requires BlocksValid(l) && BlocksValid(m) && BlocksValid(r)
    requires IsUnion(l, m, lm) && IsUnion(lm, r, u) && IsUnion(m, r, mr) && IsUnion(l, mr, v)
    ensures EdgesAt(u, signature, n) == EdgesAt(v, signature, n) <==>
            AllThree(EdgesAt(l, signature, n), EdgesAt(m, signature, n), EdgesAt(r, signature, n))
  {
    hide IsUnion, BlocksValid, EdgesAt, AllThree, Joins;
    BlocksOf(l, m, lm);
    BlocksOf(m, r, mr);
    UnionEdgesAt(l, m, lm, signature, n);
    UnionEdgesAt(lm, r, u, signature, n);
    UnionEdgesAt(m, r, mr, signature, n);
    UnionEdgesAt(l, mr, v, signature, n);
    var x, y, z := EdgesAt(l, signature, n), EdgesAt(m, signature, n), EdgesAt(r, signature, n);
    if x.Some? { WidthAt(l, signature, n); }
    if y.Some? { WidthAt(m, signature, n); }
    if z.Some? { WidthAt(r, signature, n); }
    JoinsBrackets(x, y, z, EdgesAt(lm, signature, n), EdgesAt(mr, signature, n),
                  EdgesAt(u, signature, n), EdgesAt(v, signature, n));
  }

  // ----- Success -----

  /** Occurrences that both sides have add up. */
  ghost predicate TwoAdd(x: Option<seq<Edge>>, y: Option<seq<Edge>>) {
    x.Some? && y.Some? ==> EdgesAdd(x.value, y.value)
  }

  lemma AllAddIff(l: seq<Block>, r: seq<Block>)
    ensures AllAdd(l, r) <==> forall signature, n: nat :: TwoAdd(EdgesAt(l, signature, n), EdgesAt(r, signature, n))
  {
    hide Occurrences, EdgesAt, EdgesAdd;
    if AllAdd(l, r) {
      forall signature, n: nat ensures TwoAdd(EdgesAt(l, signature, n), EdgesAt(r, signature, n)) {
        var a := Place(l, signature, n);
        var b := Place(r, signature, n);
        if a.Some? && b.Some? {
          assert AddsAt(l, r, a.value) && Paired(l, r, a.value, b.value);
        }
      }
    }
    if forall signature, n: nat :: TwoAdd(EdgesAt(l, signature, n), EdgesAt(r, signature, n)) {
      forall i, j | 0 <= i < |l| && Paired(l, r, i, j) ensures EdgesAdd(l[i].edges, r[j].edges) {
        var signature, n := l[i].signature, Occurrences(l[..i], l[i].signature);
        EdgesAtIs(l, signature, n, i);
        EdgesAtIs(r, signature, n, j);
        assert TwoAdd(EdgesAt(l, signature, n), EdgesAt(r, signature, n));
      }
    }
  }

  /** Counters of three evaluated edges add up in both bracketings, or in neither. */
  ghost predicate TakenAlike(a: Taken, b: Taken, c: Taken) {
    a.Evaluated? && b.Evaluated? && c.Evaluated? ==>
      (LeftSum(a.count, b.count, c.count).Some? <==> RightSum(a.count, b.count, c.count).Some?)
  }

  ghost predicate EdgesAlike(x: seq<Edge>, y: seq<Edge>, z: seq<Edge>) {
    forall k :: 0 <= k < |x| && k < |y| && k < |z| ==> TakenAlike(x[k].taken, y[k].taken, z[k].taken)
  }

  lemma TakenBrackets(a: Taken, b: Taken, c: Taken)
    requires TakenAlike(a, b, c)
    ensures var ab, bc := MergeTaken(a, b), MergeTaken(b, c);
            (ab.Some? && MergeTaken(ab.value, c).Some?) <==> (bc.Some? && MergeTaken(a, bc.value).Some?)
  {
    hide Plus;
  }

  lemma EdgesAddAlike(x: seq<Edge>, y: seq<Edge>, z: seq<Edge>)
    requires |x| == |y| == |z| && EdgesAlike(x, y, z)
    ensures (EdgesAdd(x, y) && EdgesAdd(MergedEdges(x, y), z)) <==> (EdgesAdd(y, z) && EdgesAdd(x, MergedEdges(y, z)))
  {
    hide MergeTaken, TakenAlike;
    forall k | 0 <= k < |x|
      ensures var ab, bc := MergeTaken(x[k].taken, y[k].taken), MergeTaken(y[k].taken, z[k].taken);
              (ab.Some? && MergeTaken(ab.value, z[k].taken).Some?) <==>
              (bc.Some? && MergeTaken(x[k].taken, bc.value).Some?)
    {
      TakenBrackets(x[k].taken, y[k].taken, z[k].taken);
    }
    if EdgesAdd(x, y) && EdgesAdd(MergedEdges(x, y), z) {
      forall k | 0 <= k < |x| ensures MergeTaken(MergedEdges(x, y)[k].taken, z[k].taken).Some? {}
    }
    if EdgesAdd(y, z) && EdgesAdd(x, MergedEdges(y, z)) {
      forall k | 0 <= k < |x| ensures MergeTaken(x[k].taken, MergedEdges(y, z)[k].taken).Some? {}
    }
  }

  /** Three occurrences of the same width whose counters add up in both bracketings, or in neither. */
  ghost predicate ThreeAlike(x: Option<seq<Edge>>, y: Option<seq<Edge>>, z: Option<seq<Edge>>) {
    x.Some? && y.Some? && z.Some? ==> |x.value| == |y.value| == |z.value| && EdgesAlike(x.value, y.value, z.value)
  }

  lemma InnerAdds(x: Option<seq<Edge>>, y: Option<seq<Edge>>, z: Option<seq<Edge>>)
    requires ThreeAlike(x, y, z)
    ensures forall xy :: Joins(x, y, xy) && TwoAdd(xy, z) ==> TwoAdd(y, z)
    ensures forall yz :: Joins(y, z, yz) && TwoAdd(x, yz) ==> TwoAdd(x, y)
    ensures forall xy, yz :: Joins(x, y, xy) && Joins(y, z, yz) ==> (TwoAdd(xy, z) <==> TwoAdd(x, yz))
  {
    hide EdgesAdd, MergedEdges, EdgesAlike;
    if x.Some? && y.Some? && z.Some? {
      EdgesAddAlike(x.value, y.value, z.value);
    }
  }

  ghost predicate AlikeEverywhere(l: seq<Block>, m: seq<Block>, r: seq<Block>) {
    forall signature, n: nat ::
      ThreeAlike(EdgesAt(l, signature, n), EdgesAt(m, signature, n), EdgesAt(r, signature, n))
  }

  /** The counters of three partners add up in both bracketings, or in neither. */
  ghost predicate PartnersAddAlike(l: seq<Block>, m: seq<Block>, r: seq<Block>) {
    forall i, j, k :: Paired(l, m, i, j) && Paired(m, r, j, k) ==> EdgesAlike(l[i].edges, m[j].edges, r[k].edges)
  }

  lemma AlikeAt(l: seq<Block>, m: seq<Block>, r: seq<Block>)
    requires BlocksValid(l) && BlocksValid(m) && BlocksValid(r) && PartnersAddAlike(l, m, r)
    ensures AlikeEverywhere(l, m, r)
  {
    hide Occurrences, EdgesAt, EdgesAlike, BlocksValid;
    forall signature, n: nat
      ensures ThreeAlike(EdgesAt(l, signature, n), EdgesAt(m, signature, n), EdgesAt(r, signature, n))
    {
      var a := Place(l, signature, n);
      var b := Place(m, signature, n);
      var c := Place(r, signature, n);
      if a.Some? && b.Some? && c.Some? {
        assert Paired(l, m, a.value, b.value) && Paired(m, r, b.value, c.value);
        WidthAt(l, signature, n);
        WidthAt(m, signature, n);
        WidthAt(r, signature, n);
      }
    }
  }

  /** Three lines unite in one bracketing exactly when they do in the other, where the counters of
      three partners add up in both or in neither. */
  lemma BracketingsSucceedAlike(l: seq<Block>, m: seq<Block>, r: seq<Block>)
    requires BlocksValid(l) && BlocksValid(m) && BlocksValid(r) && PartnersAddAlike(l, m, r)
    ensures (AllAdd(l, m) && AllAdd(UnionOf(l, m), r)) <==> (AllAdd(m, r) && AllAdd(l, UnionOf(m, r)))
  {
    hide AllAdd, BlocksValid, EdgesAt, ThreeAlike, TwoAdd, Joins, UnionOf, PartnersAddAlike;
    AlikeAt(l, m, r);
    if AllAdd(l, m) && AllAdd(UnionOf(l, m), r) {
      var lm := UnionOf(l, m);
      AllAddIff(lm, r);
      AllAddIff(m, r);
      forall signature, n: nat ensures TwoAdd(EdgesAt(m, signature, n), EdgesAt(r, signature, n)) {
        UnionEdgesAt(l, m, lm, signature, n);
        InnerAdds(EdgesAt(l, signature, n), EdgesAt(m, signature, n), EdgesAt(r, signature, n));
      }
      OuterAdd(l, m, r);
    }
    if AllAdd(m, r) && AllAdd(l, UnionOf(m, r)) {
      var mr := UnionOf(m, r);
      AllAddIff(l, mr);
      AllAddIff(l, m);
      forall signature, n: nat ensures TwoAdd(EdgesAt(l, signature, n), EdgesAt(m, signature, n)) {
        UnionEdgesAt(m, r, mr, signature, n);
        InnerAdds(EdgesAt(l, signature, n), EdgesAt(m, signature, n), EdgesAt(r, signature, n));
      }
      OuterAdd(l, m, r);
    }
  }

  lemma OuterAdd(l: seq<Block>, m: seq<Block>, r: seq<Block>)
    requires BlocksValid(l) && BlocksValid(m) && BlocksValid(r) && AllAdd(l, m) && AllAdd(m, r)
    requires AlikeEverywhere(l, m, r)
    ensures AllAdd(UnionOf(l, m), r) <==> AllAdd(l, UnionOf(m, r))
  {
    hide AllAdd, BlocksValid, EdgesAt, ThreeAlike, TwoAdd, Joins, UnionOf;
    var lm, mr := UnionOf(l, m), UnionOf(m, r);
    AllAddIff(lm, r);
    AllAddIff(l, mr);
    forall signature, n: nat
      ensures TwoAdd(EdgesAt(lm, signature, n), EdgesAt(r, signature, n)) <==>
              TwoAdd(EdgesAt(l, signature, n), EdgesAt(mr, signature, n))
    {
      UnionEdgesAt(l, m, lm, signature, n);
      UnionEdgesAt(m, r, mr, signature, n);
      InnerAdds(EdgesAt(l, signature, n), EdgesAt(m, signature, n), EdgesAt(r, signature, n));
    }
  }

  // ----- Counters as the parser keeps them -----

  ghost predicate TakenKept(t: Taken) {
    t.Evaluated? ==> IsKept(t.count)
  }

  ghost predicate AllKept(blocks: seq<Block>) {
    forall i, k :: 0 <= i < |blocks| && 0 <= k < |blocks[i].edges| ==> TakenKept(blocks[i].edges[k].taken)
  }

  ghost predicate TakenApart(a: Taken, b: Taken, c: Taken) {
    a.Evaluated? && b.Evaluated? && c.Evaluated? ==> ZerosApart(a.count, b.count, c.count)
  }

  /** No two coerced zeros spoil the sum of an edge that three partners have. */
  ghost predicate PartnersApart(l: seq<Block>, m: seq<Block>, r: seq<Block>) {
    forall i, j, k, e :: Paired(l, m, i, j) && Paired(m, r, j, k)
                         && 0 <= e < |l[i].edges| && e < |m[j].edges| && e < |r[k].edges| ==>
      TakenApart(l[i].edges[e].taken, m[j].edges[e].taken, r[k].edges[e].taken)
  }

  /** With counters as the parser keeps them, union is associative exactly when no two coerced zeros
      meet a counter that is not canonical. */
  lemma KeptUnionAssociatesIff(l: seq<Block>, m: seq<Block>, r: seq<Block>,
                               lm: seq<Block>, mr: seq<Block>, u: seq<Block>, v: seq<Block>)
    requires BlocksValid(l) && BlocksValid(m) && BlocksValid(r) && AllKept(l) && AllKept(m) && AllKept(r)
    requires IsUnion(l, m, lm) && IsUnion(lm, r, u) && IsUnion(m, r, mr) && IsUnion(l, mr, v)
    ensures u == v <==> PartnersApart(l, m, r)
  {
    hide IsUnion, BlocksValid, Occurrences;
    UnionAssociatesIff(l, m, r, lm, mr, u, v);
    forall i, j, k, e | Paired(l, m, i, j) && Paired(m, r, j, k)
                        && 0 <= e < |l[i].edges| && e < |m[j].edges| && e < |r[k].edges|
      ensures TakenAgree(l[i].edges[e].taken, m[j].edges[e].taken, r[k].edges[e].taken) <==>
              TakenApart(l[i].edges[e].taken, m[j].edges[e].taken, r[k].edges[e].taken)
    {
      TakenIff(l[i].edges[e].taken, m[j].edges[e].taken, r[k].edges[e].taken);
    }
  }

  lemma TakenIff(a: Taken, b: Taken, c: Taken)
    requires TakenKept(a) && TakenKept(b) && TakenKept(c)
    ensures TakenAgree(a, b, c) <==> TakenApart(a, b, c)
  {
    hide IsKept, ZerosApart, LeftSum, RightSum;
    if a.Evaluated? && b.Evaluated? && c.Evaluated? {
      PlusAssociatesIff(a.count, b.count, c.count);
    }
  }
}
