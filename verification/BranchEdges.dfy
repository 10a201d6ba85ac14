/** What union, intersection and difference of branch lines do to the edges of each occurrence of a
    signature: exclusion, taken state, count, kind, index and expression. */
module BranchEdges {
  import opened Wrappers
  import opened Counters
  import opened Branches
  import opened BranchAlgebra
  import opened BranchBrackets

  // ----- Merged edges -----

  /** Two edges and the one that merges them. */
  ghost predicate Merged(a: Edge, b: Edge, e: Edge) {
    && (e.excluded <==> a.excluded || b.excluded)
    && (e.taken.Evaluated? <==> a.taken.Evaluated? || b.taken.Evaluated?)
    && (a.taken.Evaluated? && b.taken.Evaluated? ==> Plus(a.taken.count, b.taken.count) == Some(e.taken.count))
    && (a.taken.Evaluated? && b.taken.NeverEvaluated? ==> e.taken.count == a.taken.count)
    && (a.taken.NeverEvaluated? && b.taken.Evaluated? ==> e.taken.count == b.taken.count)
    && e.index == a.index && e.kind == a.kind && e.expression == a.expression
  }

  /** The edges of an occurrence that both lines have. */
  ghost predicate MergedAll(x: seq<Edge>, y: seq<Edge>, u: seq<Edge>) {
    |x| == |y| == |u| && forall k :: 0 <= k < |u| ==> Merged(x[k], y[k], u[k])
  }

  lemma MergedEdgesMean(x: seq<Edge>, y: seq<Edge>)
    requires |x| == |y| && EdgesAdd(x, y)
    ensures MergedAll(x, y, MergedEdges(x, y))
  {
    hide Plus;
    forall k | 0 <= k < |x| ensures Merged(x[k], y[k], MergedEdges(x, y)[k]) {
      assert MergeTaken(x[k].taken, y[k].taken).Some?;
      assert MergedEdges(x, y)[k] == MergeEdge(x[k], y[k]);
    }
  }

  // ----- Union -----

  /** Occurrence `n` of a signature in a union: merged from both lines, or taken from the only one
      that has so many. */
  lemma UnionEdges(l: seq<Block>, r: seq<Block>, signature: Signature, n: nat)
    requires BlocksValid(l) && BlocksValid(r) && AllAdd(l, r)
    ensures var x, y, u := EdgesAt(l, signature, n), EdgesAt(r, signature, n), EdgesAt(UnionOf(l, r), signature, n);
            && (x.Some? && y.Some? ==> u.Some? && MergedAll(x.value, y.value, u.value))
            && (x.None? ==> u == y) && (y.None? ==> u == x)
  {
    hide EdgesAt, AllAdd, BlocksValid, EdgesAdd, MergedEdges, UnionOf, MergedAll;
    UnionEdgesAt(l, r, UnionOf(l, r), signature, n);
    var x, y := EdgesAt(l, signature, n), EdgesAt(r, signature, n);
    if x.Some? && y.Some? {
      WidthAt(l, signature, n);
      WidthAt(r, signature, n);
      MergedEdgesMean(x.value, y.value);
    }
  }

  // ----- Intersection -----

  /** The blocks before a kept one are the kept ones before it. */
  lemma {:induction false} KeptSource(l: seq<Block>, r: seq<Block>, n: nat, k: nat) returns (i: nat)
    requires n <= |l| && (forall i :: 0 <= i < n ==> AddsAt(l, r, i)) && k < |Kept(l, r, n)|
    ensures i < n && Matched(l, r, i) && Kept(l, r, n)[k] == MergedAt(l, r, i) && Kept(l, r, n)[..k] == Kept(l, r, i)
  {
    hide Matched, MergedAt, AddsAt;
    if k < |Kept(l, r, n - 1)| {
      i := KeptSource(l, r, n - 1, k);
      assert Kept(l, r, n)[..k] == Kept(l, r, n - 1)[..k];
    } else {
      i := n - 1;
    }
  }

  /** Occurrence `n` of a signature is in the intersection exactly when both lines have so many, and
      then it is merged from theirs. */
  lemma IntersectionEdges(l: seq<Block>, r: seq<Block>, signature: Signature, n: nat)
    requires BlocksValid(l) && BlocksValid(r) && AllAdd(l, r)
    ensures var x, y := EdgesAt(l, signature, n), EdgesAt(r, signature, n);
            var u := EdgesAt(IntersectionOf(l, r), signature, n);
            && (u.Some? <==> x.Some? && y.Some?)
            && (u.Some? ==> MergedAll(x.value, y.value, u.value))
  {
    hide Occurrences, EdgesAt, AllAdd, BlocksValid, EdgesAdd, MergedEdges, MergedAll, Renumbered, Kept, Nth, MergedAt,
         AddsAt, Matched;
    KeptNeeds(l, r);
    KeptValid(l, r, |l|);
    var kept := Kept(l, r, |l|);
    Multiplicities(l, r, signature);
    SomeAt(l, signature, n);
    SomeAt(r, signature, n);
    SomeAt(IntersectionOf(l, r), signature, n);
    var p := Place(IntersectionOf(l, r), signature, n);
    if p.Some? {
      RenumberedNth(kept, signature, n, p.value);
      var i := KeptSource(l, r, |l|, p.value);
      KeptIs(l, r, signature, n, p.value, i);
      MatchedIff(l, r, i);
      var j :| Paired(l, r, i, j);
      MergedAtIs(l, r, i, j);
      OnePartner(l, r, i, j);
      PairNth(l, r, signature, n, i, j);
      EdgesAtIs(l, signature, n, i);
      EdgesAtIs(r, signature, n, j);
      WidthAt(l, signature, n);
      WidthAt(r, signature, n);
      MergedEdgesMean(l[i].edges, r[j].edges);
    }
  }

  lemma SomeAt(blocks: seq<Block>, signature: Signature, n: nat)
    ensures EdgesAt(blocks, signature, n).Some? <==> n < Occurrences(blocks, signature)
  {
    hide Occurrences, EdgesAt, Nth;
    if n < Occurrences(blocks, signature) {
      var i := Reach(blocks, signature, n);
      ReachedIs(blocks, signature, n, i);
      EdgesAtIs(blocks, signature, n, i);
    } else {
      EdgesAtNone(blocks, signature, n);
    }
  }

  /** An occurrence before renumbering. */
  lemma RenumberedNth(blocks: seq<Block>, signature: Signature, n: nat, i: nat)
    requires BlocksValid(blocks) && Nth(Renumbered(blocks), signature, n, i)
    ensures i < |blocks| == |Renumbered(blocks)| && Renumbered(blocks)[i].edges == blocks[i].edges
    ensures blocks[i].signature == signature && Occurrences(blocks[..i], signature) == n
  {
    hide Occurrences, BlocksValid, Renumbered;
    RenumberedFacts(blocks);
    RenumberedLength(blocks);
    RenumberedPrefix(blocks, i, signature);
  }

  /** A kept block has the number of the left block that it comes from. */
  lemma KeptIs(l: seq<Block>, r: seq<Block>, signature: Signature, n: nat, k: nat, i: nat)
    requires (forall i :: 0 <= i < |l| ==> AddsAt(l, r, i)) && k < |Kept(l, r, |l|)| && i < |l| && Matched(l, r, i)
    requires Kept(l, r, |l|)[k] == MergedAt(l, r, i) && Kept(l, r, |l|)[..k] == Kept(l, r, i)
    requires Kept(l, r, |l|)[k].signature == signature && Occurrences(Kept(l, r, |l|)[..k], signature) == n
    ensures Nth(l, signature, n, i)
  {
    hide Occurrences, Kept, MergedAt, AddsAt;
    MergedAtFacts(l, r, i);
    KeptOccurrences(l, r, i, signature);
  }

  lemma PairNth(l: seq<Block>, r: seq<Block>, signature: Signature, n: nat, i: nat, j: nat)
    requires Nth(l, signature, n, i) && Paired(l, r, i, j)
    ensures Nth(r, signature, n, j)
  {}

  // ----- Difference -----

  /** The difference skips as many occurrences of a signature as the right line has, and keeps the
      others as they are. */
  lemma DifferenceEdges(l: seq<Block>, r: seq<Block>, signature: Signature, n: nat)
    requires BlocksValid(l) && BlocksValid(r)
    ensures EdgesAt(DifferenceOf(l, r), signature, n) == EdgesAt(l, signature, n + Occurrences(r, signature))
  {
    hide Occurrences, EdgesAt, BlocksValid, Renumbered, Unmatched, Nth, Matched;
    UnmatchedValid(l, r, |l|);
    Multiplicities(l, r, signature);
    SomeAt(l, signature, n + Occurrences(r, signature));
    SomeAt(DifferenceOf(l, r), signature, n);
    var p := Place(DifferenceOf(l, r), signature, n);
    if p.Some? {
      RenumberedNth(Unmatched(l, r, |l|), signature, n, p.value);
      var i := UnmatchedSource(l, r, |l|, p.value);
      UnmatchedIs(l, r, signature, n, i);
      EdgesAtIs(l, signature, n + Occurrences(r, signature), i);
    }
  }

  lemma UnmatchedIs(l: seq<Block>, r: seq<Block>, signature: Signature, n: nat, i: nat)
    requires i < |l| && !Matched(l, r, i) && l[i].signature == signature
    requires Occurrences(Unmatched(l, r, i), signature) == n
    ensures Nth(l, signature, n + Occurrences(r, signature), i)
  {
    hide Occurrences, Unmatched;
    UnmatchedOccurrences(l, r, i, signature);
  }
}
