/** Union, intersection and difference of the branch blocks of one line. Blocks are paired by the
    n-th occurrence of their signature, so each operation acts on signatures as on a multiset. */
module BranchAlgebra {
  import opened Wrappers
  import opened Ordering
  import opened Counters
  import opened Branches

  // ----- What each operation keeps, as sequences -----

  /** The counts of block `i` and of its partner, if it has one, add up. */
  ghost predicate AddsAt(l: seq<Block>, r: seq<Block>, i: int) {
    forall j :: Paired(l, r, i, j) ==> EdgesAdd(l[i].edges, r[j].edges)
  }

  ghost predicate AllAdd(l: seq<Block>, r: seq<Block>) {
    forall i :: 0 <= i < |l| ==> AddsAt(l, r, i)
  }

  /** Block `i` merged with its partner, or as it is. */
  ghost function MergedAt(l: seq<Block>, r: seq<Block>, i: nat): Block
    requires i < |l| && AddsAt(l, r, i)
  {
    if exists j :: Paired(l, r, i, j) then
      var j :| Paired(l, r, i, j);
      l[i].(edges := MergedEdges(l[i].edges, r[j].edges))
    else l[i]
  }

  ghost function LeftMerged(l: seq<Block>, r: seq<Block>): seq<Block>
    requires AllAdd(l, r)
  {
    seq(|l|, i requires 0 <= i < |l| => MergedAt(l, r, i))
  }

  /** The matched ones among the first `n` left blocks, merged. */
  ghost function Kept(l: seq<Block>, r: seq<Block>, n: nat): seq<Block>
    requires n <= |l| && forall i :: 0 <= i < n ==> AddsAt(l, r, i)
  {
    if n == 0 then [] else Kept(l, r, n - 1) + if Matched(l, r, n - 1) then [MergedAt(l, r, n - 1)] else []
  }

  /** The unmatched ones among the first `n` left blocks. */
  function Unmatched(l: seq<Block>, r: seq<Block>, n: nat): seq<Block>
    requires n <= |l|
  {
    if n == 0 then [] else Unmatched(l, r, n - 1) + if Matched(l, r, n - 1) then [] else [l[n - 1]]
  }

  lemma MergedAtIs(l: seq<Block>, r: seq<Block>, i: nat, j: nat)
    requires i < |l| && AddsAt(l, r, i) && Paired(l, r, i, j)
    ensures MergedAt(l, r, i) == l[i].(edges := MergedEdges(l[i].edges, r[j].edges))
  {
    hide Paired;
    forall k | Paired(l, r, i, k) ensures k == j {
      PairedOnce(l, r, i, j, k);
    }
  }

  lemma MergedAtFacts(l: seq<Block>, r: seq<Block>, i: nat)
    requires i < |l| && AddsAt(l, r, i)
    ensures MergedAt(l, r, i).signature == l[i].signature
    ensures BlockValid(l[i]) ==> BlockValid(MergedAt(l, r, i))
    ensures !Matched(l, r, i) ==> MergedAt(l, r, i) == l[i]
  {
    hide Paired, Occurrences, EdgesAdd, MergedEdges, Matched;
    MatchedIff(l, r, i);
    if j :| Paired(l, r, i, j) {
      PairedInside(l, r, i, j);
      MergedAtIs(l, r, i, j);
      if BlockValid(l[i]) {
        MergedValid(l[i], r[j]);
      }
    }
  }

  lemma PairedInside(l: seq<Block>, r: seq<Block>, i: int, j: int)
    requires Paired(l, r, i, j)
    ensures 0 <= i < |l| && 0 <= j < |r|
  {}

  /** Two lists whose blocks hold the same edges renumber to the same line. */
  ghost predicate SameEdges(a: seq<Block>, b: seq<Block>) {
    |a| == |b| && forall i :: 0 <= i < |a| ==> a[i].edges == b[i].edges
  }

  lemma SameEdgesSameLine(a: seq<Block>, b: seq<Block>)
    requires SameEdges(a, b)
    ensures Renumbered(a) == Renumbered(b)
  {}

  // ----- The operations -----

  /** The partner of a left block, found by counting. */
  method FindPartner(l: seq<Block>, r: seq<Block>, i: nat) returns (j: Option<nat>)
    requires i < |l|
    ensures j.Some? <==> Matched(l, r, i)
    ensures j.Some? ==> Paired(l, r, i, j.value)
  {
    hide Occurrences;
    var nth := Occurrences(l[..i], l[i].signature);
    j := FindNth(r, l[i].signature, nth);
  }

  ghost predicate PairedBefore(l: seq<Block>, r: seq<Block>, n: int, j: int) {
    exists i :: 0 <= i < n && Paired(l, r, i, j)
  }

  /** `merge_branch_line_union`: left blocks merged in place, then the right ones left over. */
  method UnionLine(left: seq<Block>, right: seq<Block>) returns (line: Option<seq<Block>>)
    ensures line.Some? <==> AllAdd(left, right)
    ensures line.Some? ==> line.value == Renumbered(LeftMerged(left, right) + Unmatched(right, left, |right|))
  {
    hide Paired, Matched, EdgesAdd, MergedEdges, MergedAt, Unmatched, Renumbered;
    var merged := left;
    var taken := seq(|right|, _ => false);
    for li := 0 to |left|
      invariant |merged| == |left| && |taken| == |right|
      invariant forall i :: 0 <= i < li ==> AddsAt(left, right, i) && merged[i] == MergedAt(left, right, i)
      invariant forall i :: li <= i < |left| ==> merged[i] == left[i]
      invariant forall j :: 0 <= j < |right| ==> (taken[j] <==> PairedBefore(left, right, li, j))
    {
      var ri := FindPartner(left, right, li);
      MatchedIff(left, right, li);
      if ri.Some? {
        PairedInside(left, right, li, ri.value);
        OnePartner(left, right, li, ri.value);
        var block := MergeBlock(merged[li], right[ri.value]);
        if block.None? { return None; }
        MergedAtIs(left, right, li, ri.value);
        merged := merged[li := block.value];
        taken := taken[ri.value := true];
      } else {
        MergedAtFacts(left, right, li);
      }
    }
    assert merged == LeftMerged(left, right);
    ghost var whole := LeftMerged(left, right);
    UnmatchedNone(right, left);
    assert whole + [] == whole;
    for ri := 0 to |right|
      invariant SameEdges(merged, whole + Unmatched(right, left, ri))
    {
      UnmatchedNext(right, left, ri);
      TakenMeans(left, right, ri);
      if !taken[ri] {
        ghost var before := whole + Unmatched(right, left, ri);
        assert whole + (Unmatched(right, left, ri) + [right[ri]]) == before + [right[ri]];
        merged := merged + [right[ri].(position := |merged|)];
      }
    }
    SameEdgesSameLine(merged, whole + Unmatched(right, left, |right|));
    return Some(Renumbered(merged));
  }

  /** A left block whose partner is known adds up exactly when the two do, and nothing else is
      paired with that partner. */
  lemma OnePartner(l: seq<Block>, r: seq<Block>, i: nat, j: nat)
    requires i < |l| && j < |r| && Paired(l, r, i, j)
    ensures AddsAt(l, r, i) <==> EdgesAdd(l[i].edges, r[j].edges)
    ensures forall k :: Paired(l, r, i, k) <==> k == j
  {
    hide Paired, EdgesAdd;
    forall k | Paired(l, r, i, k) ensures k == j {
      PairedOnce(l, r, i, j, k);
    }
  }

  lemma TakenMeans(l: seq<Block>, r: seq<Block>, j: nat)
    requires j < |r|
    ensures PairedBefore(l, r, |l|, j) <==> Matched(r, l, j)
  {
    hide Matched, Occurrences;
    MatchedIff(r, l, j);
    forall i ensures Paired(l, r, i, j) <==> Paired(r, l, j, i) {
      PairedSymmetric(l, r, i, j);
    }
  }

  lemma UnmatchedNone(l: seq<Block>, r: seq<Block>)
    ensures Unmatched(l, r, 0) == []
  {}

  lemma UnmatchedNext(l: seq<Block>, r: seq<Block>, n: nat)
    requires n < |l|
    ensures Unmatched(l, r, n + 1) == Unmatched(l, r, n) + if Matched(l, r, n) then [] else [l[n]]
  {
    hide Matched;
  }

  /** `merge_branch_line_intersect`: the matched left blocks, merged. */
  method IntersectLine(left: seq<Block>, right: seq<Block>) returns (line: Option<seq<Block>>)
    ensures line.Some? <==> AllAdd(left, right)
    ensures line.Some? ==> line.value == Renumbered(Kept(left, right, |left|))
  {
    hide Paired, Matched, EdgesAdd, MergedEdges, MergedAt, Renumbered;
    var kept: seq<Block> := [];
    for li := 0 to |left|
      invariant forall i :: 0 <= i < li ==> AddsAt(left, right, i)
      invariant kept == Kept(left, right, li)
    {
      var ri := FindPartner(left, right, li);
      MatchedIff(left, right, li);
      if ri.Some? {
        PairedInside(left, right, li, ri.value);
        OnePartner(left, right, li, ri.value);
        var block := MergeBlock(left[li], right[ri.value]);
        if block.None? { return None; }
        MergedAtIs(left, right, li, ri.value);
        kept := kept + [block.value];
      }
    }
    return Some(Renumbered(kept));
  }

  /** `merge_branch_line_difference`: marks the partners of the right blocks and keeps the rest. */
  method DifferenceLine(left: seq<Block>, right: seq<Block>) returns (line: seq<Block>)
    ensures line == Renumbered(Unmatched(left, right, |left|))
  {
    hide Paired, Matched, Renumbered, Unmatched;
    var remove := seq(|left|, _ => false);
    for ri := 0 to |right|
      invariant |remove| == |left|
      invariant forall i :: 0 <= i < |left| ==> (remove[i] <==> PairedBefore(right, left, ri, i))
    {
      var li := FindPartner(right, left, ri);
      MatchedIff(right, left, ri);
      if li.Some? {
        PairedInside(right, left, ri, li.value);
        OnePartner(right, left, ri, li.value);
        remove := remove[li.value := true];
      }
    }
    var kept: seq<Block> := [];
    UnmatchedNone(left, right);
    for i := 0 to |left|
      invariant kept == Unmatched(left, right, i)
    {
      UnmatchedNext(left, right, i);
      TakenMeans(right, left, i);
      if !remove[i] {
        kept := kept + [left[i]];
      }
    }
    return Renumbered(kept);
  }

  // ----- Signatures as a multiset -----

  function Beyond(a: nat, b: nat): nat {
    if a < b then 0 else a - b
  }

  lemma OccurrencesSnoc(blocks: seq<Block>, b: Block, signature: Signature)
    ensures Occurrences(blocks + [b], signature) ==
            Occurrences(blocks, signature) + if b.signature == signature then 1 else 0
  {
    assert (blocks + [b])[..|blocks|] == blocks;
  }

  lemma {:induction false} KeptOccurrences(l: seq<Block>, r: seq<Block>, n: nat, signature: Signature)
    requires n <= |l| && forall i :: 0 <= i < n ==> AddsAt(l, r, i)
    ensures Occurrences(Kept(l, r, n), signature) == Min(Occurrences(l[..n], signature), Occurrences(r, signature))
  {
    hide Occurrences, AddsAt, MergedAt;
    if n == 0 {
      NoneCounted(l, signature);
    } else {
      KeptOccurrences(l, r, n - 1, signature);
      OccurrencesNext(l, n - 1, signature);
      if Matched(l, r, n - 1) {
        MergedAtFacts(l, r, n - 1);
        OccurrencesSnoc(Kept(l, r, n - 1), MergedAt(l, r, n - 1), signature);
      } else {
        assert Kept(l, r, n) == Kept(l, r, n - 1);
      }
    }
  }

  lemma NoneCounted(l: seq<Block>, signature: Signature)
    ensures Occurrences([], signature) == 0 && Occurrences(l[..0], signature) == 0
  {}

  lemma {:induction false} UnmatchedOccurrences(l: seq<Block>, r: seq<Block>, n: nat, signature: Signature)
    requires n <= |l|
    ensures Occurrences(Unmatched(l, r, n), signature) ==
            Beyond(Occurrences(l[..n], signature), Occurrences(r, signature))
  {
    hide Occurrences;
    if n == 0 {
      NoneCounted(l, signature);
    } else {
      UnmatchedOccurrences(l, r, n - 1, signature);
      OccurrencesNext(l, n - 1, signature);
      if !Matched(l, r, n - 1) {
        OccurrencesSnoc(Unmatched(l, r, n - 1), l[n - 1], signature);
      } else {
        assert Unmatched(l, r, n) == Unmatched(l, r, n - 1);
      }
    }
  }

  function Signatures(blocks: seq<Block>): (r: seq<Signature>)
    ensures |r| == |blocks| && forall i :: 0 <= i < |blocks| ==> r[i] == blocks[i].signature
  {
    seq(|blocks|, i requires 0 <= i < |blocks| => blocks[i].signature)
  }

  lemma {:induction false} OccurrencesAre(blocks: seq<Block>, signature: Signature)
    ensures Occurrences(blocks, signature) == multiset(Signatures(blocks))[signature]
  {
    if blocks != [] {
      var init := blocks[..|blocks| - 1];
      OccurrencesAre(init, signature);
      assert Signatures(blocks) == Signatures(init) + [blocks[|blocks| - 1].signature];
    }
  }

  lemma SameSignatures(a: seq<Block>, b: seq<Block>, signature: Signature)
    requires Signatures(a) == Signatures(b)
    ensures Occurrences(a, signature) == Occurrences(b, signature)
  {
    hide Occurrences, Signatures;
    OccurrencesAre(a, signature);
    OccurrencesAre(b, signature);
  }

  lemma SameLength(a: seq<Block>, b: seq<Block>)
    requires forall signature :: Occurrences(a, signature) == Occurrences(b, signature)
    ensures |a| == |b|
  {
    hide Occurrences, Signatures;
    forall signature ensures multiset(Signatures(a))[signature] == multiset(Signatures(b))[signature] {
      OccurrencesAre(a, signature);
      OccurrencesAre(b, signature);
    }
    assert multiset(Signatures(a)) == multiset(Signatures(b));
    assert |Signatures(a)| == |multiset(Signatures(a))| == |multiset(Signatures(b))| == |Signatures(b)|;
  }

  lemma {:induction false} KeptValid(l: seq<Block>, r: seq<Block>, n: nat)
    requires n <= |l| && BlocksValid(l) && forall i :: 0 <= i < n ==> AddsAt(l, r, i)
    ensures BlocksValid(Kept(l, r, n))
  {
    hide BlockValid, AddsAt, MergedAt, Matched;
    if n > 0 {
      KeptValid(l, r, n - 1);
      MergedAtFacts(l, r, n - 1);
    }
  }

  lemma {:induction false} UnmatchedValid(l: seq<Block>, r: seq<Block>, n: nat)
    requires n <= |l| && BlocksValid(l)
    ensures BlocksValid(Unmatched(l, r, n))
  {
    hide BlockValid, Matched;
    if n > 0 {
      UnmatchedValid(l, r, n - 1);
    }
  }

  lemma LeftMergedFacts(l: seq<Block>, r: seq<Block>)
    requires AllAdd(l, r) && BlocksValid(l)
    ensures BlocksValid(LeftMerged(l, r)) && Signatures(LeftMerged(l, r)) == Signatures(l)
  {
    hide BlockValid, AddsAt, MergedAt, Matched;
    forall i | 0 <= i < |l| ensures BlockValid(LeftMerged(l, r)[i]) && LeftMerged(l, r)[i].signature == l[i].signature {
      MergedAtFacts(l, r, i);
    }
  }

  /** Renumbering valid blocks keeps their signatures. */
  lemma RenumberedSignatures(blocks: seq<Block>)
    requires BlocksValid(blocks)
    ensures Signatures(Renumbered(blocks)) == Signatures(blocks)
  {
    hide Renumbered, BlockValid;
    RenumberedFacts(blocks);
  }

  ghost function UnionOf(l: seq<Block>, r: seq<Block>): seq<Block>
    requires AllAdd(l, r)
  {
    Renumbered(LeftMerged(l, r) + Unmatched(r, l, |r|))
  }

  ghost function IntersectionOf(l: seq<Block>, r: seq<Block>): seq<Block>
    requires AllAdd(l, r)
  {
    Renumbered(Kept(l, r, |l|))
  }

  function DifferenceOf(l: seq<Block>, r: seq<Block>): seq<Block> {
    Renumbered(Unmatched(l, r, |l|))
  }

  /** Every result is a valid line again, so the invariant check after each operation passes. */
  lemma ResultsValid(l: seq<Block>, r: seq<Block>)
    ensures LineValid(DifferenceOf(l, r))
    ensures AllAdd(l, r) ==> LineValid(UnionOf(l, r)) && LineValid(IntersectionOf(l, r))
  {
    hide Renumbered, LineValid, AllAdd, Kept, Unmatched, LeftMerged;
    RenumberedFacts(Unmatched(l, r, |l|));
    if AllAdd(l, r) {
      RenumberedFacts(LeftMerged(l, r) + Unmatched(r, l, |r|));
      KeptNeeds(l, r);
      RenumberedFacts(Kept(l, r, |l|));
    }
  }

  lemma KeptNeeds(l: seq<Block>, r: seq<Block>)
    requires AllAdd(l, r)
    ensures forall i :: 0 <= i < |l| ==> AddsAt(l, r, i)
  {}

  /** A signature occurs in the union as often as on the side that has more of it, in the
      intersection as often as on the side that has less, and in the difference as often as the
      left side has more of it. */
  lemma Multiplicities(l: seq<Block>, r: seq<Block>, signature: Signature)
    requires BlocksValid(l) && BlocksValid(r)
    ensures Occurrences(DifferenceOf(l, r), signature) == Beyond(Occurrences(l, signature), Occurrences(r, signature))
    ensures AllAdd(l, r) ==>
              && Occurrences(UnionOf(l, r), signature) == Max(Occurrences(l, signature), Occurrences(r, signature))
              && Occurrences(IntersectionOf(l, r), signature) ==
                 Min(Occurrences(l, signature), Occurrences(r, signature))
  {
    hide Renumbered, Occurrences, Kept, Unmatched, LeftMerged, Signatures, BlocksValid;
    assert l[..|l|] == l && r[..|r|] == r;
    UnmatchedOccurrences(l, r, |l|, signature);
    UnmatchedValid(l, r, |l|);
    RenumberedOccurrences(Unmatched(l, r, |l|), signature);
    if AllAdd(l, r) {
      LeftMergedFacts(l, r);
      SameSignatures(LeftMerged(l, r), l, signature);
      UnmatchedOccurrences(r, l, |r|, signature);
      UnmatchedValid(r, l, |r|);
      OccurrencesAppend(LeftMerged(l, r), Unmatched(r, l, |r|), signature);
      BothValid(LeftMerged(l, r), Unmatched(r, l, |r|));
      RenumberedOccurrences(LeftMerged(l, r) + Unmatched(r, l, |r|), signature);
      KeptOccurrences(l, r, |l|, signature);
      KeptValid(l, r, |l|);
      RenumberedOccurrences(Kept(l, r, |l|), signature);
    }
  }

  lemma BothValid(a: seq<Block>, b: seq<Block>)
    requires BlocksValid(a) && BlocksValid(b)
    ensures BlocksValid(a + b)
  {
    hide BlockValid;
  }

  lemma RenumberedOccurrences(blocks: seq<Block>, signature: Signature)
    requires BlocksValid(blocks)
    ensures Occurrences(Renumbered(blocks), signature) == Occurrences(blocks, signature)
  {
    hide Renumbered, Occurrences, Signatures, BlocksValid;
    RenumberedSignatures(blocks);
    SameSignatures(Renumbered(blocks), blocks, signature);
  }

  lemma {:induction false} KeptOrUnmatched(l: seq<Block>, r: seq<Block>, n: nat)
    requires n <= |l| && forall i :: 0 <= i < n ==> AddsAt(l, r, i)
    ensures |Kept(l, r, n)| + |Unmatched(l, r, n)| == n
  {
    hide AddsAt, MergedAt, Matched;
    if n > 0 {
      KeptOrUnmatched(l, r, n - 1);
    }
  }

  /** Adding up does not depend on which side is the left one. */
  lemma AllAddSymmetric(l: seq<Block>, r: seq<Block>)
    requires AllAdd(l, r)
    ensures AllAdd(r, l)
  {
    hide Occurrences, EdgesAdd;
    forall j, i | 0 <= j < |r| && Paired(r, l, j, i) ensures EdgesAdd(r[j].edges, l[i].edges) {
      PairedSymmetric(l, r, i, j);
      assert AddsAt(l, r, i);
      EdgesAddSymmetric(l[i].edges, r[j].edges);
    }
  }

  lemma EdgesAddSymmetric(l: seq<Edge>, r: seq<Edge>)
    requires EdgesAdd(l, r)
    ensures EdgesAdd(r, l)
  {
    forall i | 0 <= i < |r| && i < |l| ensures MergeTaken(r[i].taken, l[i].taken).Some? {
      assert MergeTaken(l[i].taken, r[i].taken).Some?;
      MergeTakenCommutes(l[i].taken, r[i].taken);
    }
  }

  /** Merging taken states is commutative, because counter addition is. */
  lemma MergeTakenCommutes(l: Taken, r: Taken)
    ensures MergeTaken(l, r) == MergeTaken(r, l)
  {
    hide Plus;
    if l.Evaluated? && r.Evaluated? {
      PlusCommutes(l.count, r.count);
    }
  }

  /** No block is lost or invented: intersection and difference divide the left line between them,
      and union and intersection together have as many blocks as the two lines. */
  lemma BlocksConserved(l: seq<Block>, r: seq<Block>)
    requires BlocksValid(l) && BlocksValid(r) && AllAdd(l, r)
    ensures |IntersectionOf(l, r)| + |DifferenceOf(l, r)| == |l|
    ensures |UnionOf(l, r)| + |IntersectionOf(l, r)| == |l| + |r|
    ensures AllAdd(r, l) && |UnionOf(l, r)| == |UnionOf(r, l)|
  {
    hide Kept, Unmatched, AddsAt, BlocksValid, MergedAt, Occurrences;
    AllAddSymmetric(l, r);
    KeptOrUnmatched(l, r, |l|);
    KeptOrUnmatched(r, l, |r|);
    forall signature ensures Occurrences(Kept(l, r, |l|), signature) == Occurrences(Kept(r, l, |r|), signature) {
      KeptOccurrences(l, r, |l|, signature);
      KeptOccurrences(r, l, |r|, signature);
      assert l[..|l|] == l && r[..|r|] == r;
    }
    SameLength(Kept(l, r, |l|), Kept(r, l, |r|));
  }

  // ----- Swapping the operands -----

  /** Block `i` is the occurrence number `n` of the signature, counted from zero. */
  predicate Nth(blocks: seq<Block>, signature: Signature, n: nat, i: int) {
    0 <= i < |blocks| && blocks[i].signature == signature && Occurrences(blocks[..i], signature) == n
  }

  lemma NthOnce(blocks: seq<Block>, signature: Signature, n: nat, i: int, j: int)
    requires Nth(blocks, signature, n, i) && Nth(blocks, signature, n, j)
    ensures i == j
  {
    PairedOnce(blocks, blocks, i, i, j);
  }

  lemma NthInside(blocks: seq<Block>, signature: Signature, n: nat, i: int)
    requires Nth(blocks, signature, n, i)
    ensures n < Occurrences(blocks, signature)
  {
    hide Occurrences;
    OccurrencesNext(blocks, i, signature);
    OccurrencesGrow(blocks, i + 1, |blocks|, signature);
    assert blocks[..|blocks|] == blocks;
  }

  /** The blocks before an unmatched one are the unmatched ones before it. */
  lemma {:induction false} UnmatchedSource(l: seq<Block>, r: seq<Block>, n: nat, k: nat) returns (i: nat)
    requires n <= |l| && k < |Unmatched(l, r, n)|
    ensures i < n && !Matched(l, r, i) && Unmatched(l, r, n)[k] == l[i] && Unmatched(l, r, n)[..k] == Unmatched(l, r, i)
  {
    hide Matched;
    if k < |Unmatched(l, r, n - 1)| {
      i := UnmatchedSource(l, r, n - 1, k);
      assert Unmatched(l, r, n)[..k] == Unmatched(l, r, n - 1)[..k];
    } else {
      i := n - 1;
    }
  }

  /** The union before renumbering. */
  ghost function Gathered(l: seq<Block>, r: seq<Block>): seq<Block>
    requires AllAdd(l, r)
  {
    LeftMerged(l, r) + Unmatched(r, l, |r|)
  }

  lemma GatheredLeft(l: seq<Block>, r: seq<Block>, i: nat)
    requires BlocksValid(l) && AllAdd(l, r) && i < |l|
    ensures i < |Gathered(l, r)| && Gathered(l, r)[i] == MergedAt(l, r, i)
    ensures forall signature :: Occurrences(Gathered(l, r)[..i], signature) == Occurrences(l[..i], signature)
  {
    hide Occurrences, MergedAt, Unmatched, AddsAt, BlockValid;
    LeftMergedFacts(l, r);
    assert Gathered(l, r)[i] == LeftMerged(l, r)[i];
    var a, b := Gathered(l, r)[..i], l[..i];
    forall k | 0 <= k < i ensures a[k].signature == b[k].signature {
      assert a[k] == LeftMerged(l, r)[k];
      assert Signatures(LeftMerged(l, r))[k] == Signatures(l)[k];
    }
    forall signature ensures Occurrences(a, signature) == Occurrences(b, signature) {
      assert Signatures(a) == Signatures(b);
      SameSignatures(a, b, signature);
    }
  }

  lemma GatheredRight(l: seq<Block>, r: seq<Block>, i: nat) returns (j: nat)
    requires BlocksValid(l) && AllAdd(l, r) && |l| <= i < |Gathered(l, r)|
    ensures j < |r| && !Matched(r, l, j) && Gathered(l, r)[i] == r[j]
    ensures Nth(r, r[j].signature, Occurrences(Gathered(l, r)[..i], r[j].signature), j)
  {
    hide Occurrences, MergedAt, Unmatched, AddsAt, BlockValid;
    var merged, rest := LeftMerged(l, r), Unmatched(r, l, |r|);
    j := UnmatchedSource(r, l, |r|, i - |l|);
    var signature := r[j].signature;
    assert Gathered(l, r)[..i] == merged + rest[..i - |l|];
    OccurrencesAppend(merged, rest[..i - |l|], signature);
    LeftMergedFacts(l, r);
    SameSignatures(merged, l, signature);
    UnmatchedOccurrences(r, l, j, signature);
  }

  /** Occurrence `n` of a signature in the union comes from occurrence `n` on either side: from
      both, merged, or from the one that has so many. */
  lemma NthOfUnion(l: seq<Block>, r: seq<Block>, i: nat) returns (a: Option<nat>, b: Option<nat>)
    requires BlocksValid(l) && AllAdd(l, r) && i < |Gathered(l, r)|
    ensures
      var u := Gathered(l, r);
      var signature := u[i].signature;
      var n := Occurrences(u[..i], signature);
      && (a.Some? ==> Nth(l, signature, n, a.value)) && (a.None? ==> Occurrences(l, signature) <= n)
      && (b.Some? ==> Nth(r, signature, n, b.value)) && (b.None? ==> Occurrences(r, signature) <= n)
      && (a.Some? && b.Some? ==>
            && EdgesAdd(l[a.value].edges, r[b.value].edges)
            && u[i].edges == MergedEdges(l[a.value].edges, r[b.value].edges))
      && (a.Some? && b.None? ==> u[i].edges == l[a.value].edges)
      && (a.None? ==> b.Some? && u[i].edges == r[b.value].edges)
  {
    hide Occurrences, Gathered, MergedAt, AllAdd, EdgesAdd, MergedEdges, BlocksValid;
    if i < |l| {
      GatheredLeft(l, r, i);
      AddsHere(l, r, i);
      MergedAtFacts(l, r, i);
      a := Some(i);
      if Matched(l, r, i) {
        MatchedIff(l, r, i);
        var j :| Paired(l, r, i, j);
        MergedAtIs(l, r, i, j);
        OnePartner(l, r, i, j);
        b := Some(j);
      } else {
        b := None;
      }
    } else {
      var j := GatheredRight(l, r, i);
      a, b := None, Some(j);
    }
  }

  lemma AddsHere(l: seq<Block>, r: seq<Block>, i: nat)
    requires AllAdd(l, r) && i < |l|
    ensures AddsAt(l, r, i)
  {}

  predicate SameExpressions(a: seq<Edge>, b: seq<Edge>) {
    |a| == |b| && forall k :: 0 <= k < |a| ==> a[k].expression == b[k].expression
  }

  /** Equal in everything but the expression: index, taken state, kind and exclusion. */
  predicate SameCoverage(a: seq<Edge>, b: seq<Edge>) {
    |a| == |b| && forall k :: 0 <= k < |a| ==> a[k] == b[k].(expression := a[k].expression)
  }

  lemma MergedCoverage(l: Block, r: Block)
    requires BlockValid(l) && BlockValid(r) && l.signature == r.signature && EdgesAdd(l.edges, r.edges)
    ensures EdgesAdd(r.edges, l.edges) && SameCoverage(MergedEdges(l.edges, r.edges), MergedEdges(r.edges, l.edges))
    ensures MergedEdges(l.edges, r.edges) == MergedEdges(r.edges, l.edges) <==> SameExpressions(l.edges, r.edges)
  {
    hide MergeTaken;
    EdgesAddSymmetric(l.edges, r.edges);
    var a, b := MergedEdges(l.edges, r.edges), MergedEdges(r.edges, l.edges);
    forall k | 0 <= k < |a|
      ensures a[k] == b[k].(expression := a[k].expression)
      ensures a[k].expression == l.edges[k].expression && b[k].expression == r.edges[k].expression
    {
      MergeTakenCommutes(l.edges[k].taken, r.edges[k].taken);
      assert a[k] == MergeEdge(l.edges[k], r.edges[k]) && b[k] == MergeEdge(r.edges[k], l.edges[k]);
    }
    if a == b {
      forall k | 0 <= k < |a| ensures l.edges[k].expression == r.edges[k].expression {
        assert a[k] == b[k];
      }
    }
  }

  /** Partners of the two unions are the same blocks of the operands, merged in either order. */
  lemma PartnersAlike(l: seq<Block>, r: seq<Block>, i: nat, j: nat)
    requires BlocksValid(l) && BlocksValid(r) && AllAdd(l, r) && AllAdd(r, l)
    requires Paired(Gathered(l, r), Gathered(r, l), i, j)
    ensures SameCoverage(Gathered(l, r)[i].edges, Gathered(r, l)[j].edges)
    ensures AgreedExpressions(l, r) ==> Gathered(l, r)[i].edges == Gathered(r, l)[j].edges
  {
    hide Occurrences, Gathered, AllAdd, EdgesAdd, MergedEdges, Nth, BlockValid, SameExpressions;
    var u, w := Gathered(l, r), Gathered(r, l);
    var signature := u[i].signature;
    var n := Occurrences(u[..i], signature);
    var a, b := NthOfUnion(l, r, i);
    var c, d := NthOfUnion(r, l, j);
    SameSource(l, signature, n, a, d);
    SameSource(r, signature, n, b, c);
    if a.Some? && b.Some? {
      NthBlock(l, signature, n, a.value);
      NthBlock(r, signature, n, b.value);
      MergedCoverage(l[a.value], r[b.value]);
      NthPaired(l, r, signature, n, a.value, b.value);
    }
  }

  lemma NthBlock(blocks: seq<Block>, signature: Signature, n: nat, i: nat)
    requires Nth(blocks, signature, n, i)
    ensures i < |blocks| && blocks[i].signature == signature
  {}

  lemma NthPaired(l: seq<Block>, r: seq<Block>, signature: Signature, n: nat, i: nat, j: nat)
    requires Nth(l, signature, n, i) && Nth(r, signature, n, j)
    ensures Paired(l, r, i, j)
  {}

  lemma SameSource(blocks: seq<Block>, signature: Signature, n: nat, a: Option<nat>, b: Option<nat>)
    requires a.Some? ==> Nth(blocks, signature, n, a.value)
    requires b.Some? ==> Nth(blocks, signature, n, b.value)
    requires a.None? || b.None? ==> Occurrences(blocks, signature) <= n
    ensures a == b
  {
    hide Nth, Occurrences;
    if a.Some? && b.Some? {
      NthOnce(blocks, signature, n, a.value, b.value);
    } else if a.Some? {
      NthInside(blocks, signature, n, a.value);
    } else if b.Some? {
      NthInside(blocks, signature, n, b.value);
    }
  }

  /** Partners of the two operands carry the same expressions, edge by edge. */
  ghost predicate AgreedExpressions(l: seq<Block>, r: seq<Block>) {
    forall i, j :: Paired(l, r, i, j) ==> SameExpressions(l[i].edges, r[j].edges)
  }

  /** Every block of either line has a partner in the other, with the same edges. */
  ghost predicate SameBlocks(a: seq<Block>, b: seq<Block>) {
    && (forall i :: 0 <= i < |a| ==> Matched(a, b, i))
    && (forall j :: 0 <= j < |b| ==> Matched(b, a, j))
    && forall i, j :: Paired(a, b, i, j) ==> a[i].edges == b[j].edges
  }

  /** Renumbering keeps which blocks are partners, and their edges. */
  lemma RenumberedPairs(a: seq<Block>, b: seq<Block>, i: int, j: int)
    requires BlocksValid(a) && BlocksValid(b)
    ensures Paired(Renumbered(a), Renumbered(b), i, j) <==> Paired(a, b, i, j)
    ensures Paired(a, b, i, j) ==> Renumbered(a)[i].edges == a[i].edges && Renumbered(b)[j].edges == b[j].edges
  {
    hide Occurrences, Renumbered, BlockValid;
    RenumberedFacts(a);
    RenumberedFacts(b);
    if 0 <= i < |a| && 0 <= j < |b| {
      RenumberedPrefix(a, i, a[i].signature);
      RenumberedPrefix(b, j, a[i].signature);
    }
  }

  lemma RenumberedPrefix(blocks: seq<Block>, i: nat, signature: Signature)
    requires BlocksValid(blocks) && i <= |blocks|
    ensures Occurrences(Renumbered(blocks)[..i], signature) == Occurrences(blocks[..i], signature)
  {
    hide Occurrences, Renumbered, BlockValid;
    RenumberedFacts(blocks);
    assert Signatures(Renumbered(blocks)[..i]) == Signatures(blocks[..i]);
    SameSignatures(Renumbered(blocks)[..i], blocks[..i], signature);
  }

  lemma GatheredValid(l: seq<Block>, r: seq<Block>)
    requires BlocksValid(l) && BlocksValid(r) && AllAdd(l, r)
    ensures BlocksValid(Gathered(l, r))
  {
    hide Unmatched, LeftMerged, BlockValid;
    LeftMergedFacts(l, r);
    UnmatchedValid(r, l, |r|);
    BothValid(LeftMerged(l, r), Unmatched(r, l, |r|));
  }

  lemma UnionsPaired(l: seq<Block>, r: seq<Block>, i: int, j: int)
    requires BlocksValid(l) && BlocksValid(r) && AllAdd(l, r) && AllAdd(r, l)
    requires Paired(UnionOf(l, r), UnionOf(r, l), i, j)
    ensures SameCoverage(UnionOf(l, r)[i].edges, UnionOf(r, l)[j].edges)
    ensures AgreedExpressions(l, r) ==> UnionOf(l, r)[i].edges == UnionOf(r, l)[j].edges
  {
    hide Renumbered, AllAdd, BlocksValid, LeftMerged, Unmatched, AgreedExpressions, SameCoverage, Occurrences;
    GatheredValid(l, r);
    GatheredValid(r, l);
    RenumberedPairs(Gathered(l, r), Gathered(r, l), i, j);
    PartnersAlike(l, r, i, j);
  }

  /** Partners of the operands are partners of the unions, at the same places. */
  lemma OperandsPaired(l: seq<Block>, r: seq<Block>, i: int, j: int)
    requires BlocksValid(l) && BlocksValid(r) && AllAdd(l, r) && AllAdd(r, l)
    requires Paired(l, r, i, j)
    ensures Paired(UnionOf(l, r), UnionOf(r, l), i, j)
    ensures UnionOf(l, r)[i].edges == UnionOf(r, l)[j].edges <==> SameExpressions(l[i].edges, r[j].edges)
  {
    hide Renumbered, AllAdd, BlocksValid, LeftMerged, Unmatched, SameExpressions, Occurrences, MergedAt,
         EdgesAdd, MergedEdges;
    GatheredValid(l, r);
    GatheredValid(r, l);
    GatheredLeft(l, r, i);
    GatheredLeft(r, l, j);
    PairedSymmetric(l, r, i, j);
    AddsHere(l, r, i);
    AddsHere(r, l, j);
    OnePartner(l, r, i, j);
    MergedAtIs(l, r, i, j);
    MergedAtIs(r, l, j, i);
    EachValid(l, i);
    EachValid(r, j);
    MergedCoverage(l[i], r[j]);
    RenumberedPairs(Gathered(l, r), Gathered(r, l), i, j);
  }

  lemma EachValid(blocks: seq<Block>, i: nat)
    requires BlocksValid(blocks) && i < |blocks|
    ensures BlockValid(blocks[i])
  {}

  lemma EvenlyMatched(a: seq<Block>, b: seq<Block>)
    requires forall signature :: Occurrences(a, signature) == Occurrences(b, signature)
    ensures forall i :: 0 <= i < |a| ==> Matched(a, b, i)
  {
    hide Occurrences;
    forall i | 0 <= i < |a| ensures Matched(a, b, i) {
      NthInside(a, a[i].signature, Occurrences(a[..i], a[i].signature), i);
    }
  }

  /** Swapping the operands of a union changes the order of the blocks and, where partners differ
      in an expression, whose expression is kept: taken states, kinds and exclusions stay. */
  lemma UnionSwapped(l: seq<Block>, r: seq<Block>)
    requires BlocksValid(l) && BlocksValid(r) && AllAdd(l, r)
    ensures AllAdd(r, l)
    ensures forall i, j :: Paired(UnionOf(l, r), UnionOf(r, l), i, j) ==>
                             SameCoverage(UnionOf(l, r)[i].edges, UnionOf(r, l)[j].edges)
    ensures SameBlocks(UnionOf(l, r), UnionOf(r, l)) <==> AgreedExpressions(l, r)
  {
    hide Renumbered, AllAdd, BlocksValid, LeftMerged, Unmatched, SameExpressions, SameCoverage, Occurrences,
         UnionOf, Matched, Paired;
    AllAddSymmetric(l, r);
    var u, w := UnionOf(l, r), UnionOf(r, l);
    forall signature ensures Occurrences(u, signature) == Occurrences(w, signature) {
      Multiplicities(l, r, signature);
      Multiplicities(r, l, signature);
    }
    EvenlyMatched(u, w);
    EvenlyMatched(w, u);
    forall i, j | Paired(u, w, i, j)
      ensures 0 <= i < |u| && 0 <= j < |w| && SameCoverage(u[i].edges, w[j].edges)
      ensures AgreedExpressions(l, r) ==> u[i].edges == w[j].edges
    {
      PairedInside(u, w, i, j);
      UnionsPaired(l, r, i, j);
    }
    if SameBlocks(u, w) {
      forall i, j | Paired(l, r, i, j) ensures 0 <= i < |l| && 0 <= j < |r| && SameExpressions(l[i].edges, r[j].edges) {
        PairedInside(l, r, i, j);
        OperandsPaired(l, r, i, j);
      }
    }
  }
}
