/**
 Ordered branch coverage of one line: blocks of edges, paired across two lines by the n-th
 occurrence of their kind signature, and the union, intersection and difference built on it.
 */
module Branches {
  import opened Wrappers
  import opened Counters

  datatype Kind = Vanilla | Exception | Fallthrough

  type Signature = seq<Kind>

  /** `-` in a record, or an evaluated count. */
  datatype Taken = NeverEvaluated | Evaluated(count: Count)

  datatype Edge = Edge(index: int, taken: Taken, expression: Option<string>, kind: Kind, excluded: bool)

  datatype Block = Block(position: int, signature: Signature, edges: seq<Edge>)

  // ----- Invariants -----

  predicate BlockValid(b: Block) {
    && |b.signature| == |b.edges|
    && forall i :: 0 <= i < |b.edges| ==> b.edges[i].index == i && b.signature[i] == b.edges[i].kind
  }

  predicate BlocksValid(blocks: seq<Block>) {
    forall i :: 0 <= i < |blocks| ==> BlockValid(blocks[i])
  }

  /** What `assert_invariants` checks of one line. */
  predicate LineValid(blocks: seq<Block>) {
    BlocksValid(blocks) && forall i :: 0 <= i < |blocks| ==> blocks[i].position == i
  }

  function Reindexed(edges: seq<Edge>): (r: seq<Edge>)
    ensures |r| == |edges| && forall i :: 0 <= i < |edges| ==> r[i] == edges[i].(index := i)
  {
    seq(|edges|, i requires 0 <= i < |edges| => edges[i].(index := i))
  }

  function Kinds(edges: seq<Edge>): (r: Signature)
    ensures |r| == |edges| && forall i :: 0 <= i < |edges| ==> r[i] == edges[i].kind
  {
    seq(|edges|, i requires 0 <= i < |edges| => edges[i].kind)
  }

  /** `renumber_branch_line`: positions, signatures and edge indexes rebuilt. */
  function Renumbered(blocks: seq<Block>): (r: seq<Block>)
    ensures |r| == |blocks|
    ensures forall i :: 0 <= i < |blocks| ==>
              r[i] == Block(i, Kinds(blocks[i].edges), Reindexed(blocks[i].edges))
  {
    seq(|blocks|, i requires 0 <= i < |blocks| => Block(i, Kinds(blocks[i].edges), Reindexed(blocks[i].edges)))
  }

  /** Renumbering makes any line valid and changes only positions where blocks are valid. */
  lemma RenumberedFacts(blocks: seq<Block>)
    ensures LineValid(Renumbered(blocks))
    ensures BlocksValid(blocks) ==>
              forall i :: 0 <= i < |blocks| ==> Renumbered(blocks)[i] == blocks[i].(position := i)
  {
    if BlocksValid(blocks) {
      forall i | 0 <= i < |blocks| ensures Renumbered(blocks)[i] == blocks[i].(position := i) {
        assert Kinds(blocks[i].edges) == blocks[i].signature;
        assert Reindexed(blocks[i].edges) == blocks[i].edges;
      }
    }
  }

  // ----- Merging matched blocks -----

  /** `merge_with`: a right `-` changes nothing, a left one gives way, counts add. */
  function MergeTaken(l: Taken, r: Taken): Option<Taken> {
    if r.NeverEvaluated? then Some(l)
    else if l.NeverEvaluated? then Some(r)
    else match Plus(l.count, r.count)
      case Some(sum) => Some(Evaluated(sum))
      case None => None
  }

  predicate EdgesAdd(l: seq<Edge>, r: seq<Edge>) {
    forall i :: 0 <= i < |l| && i < |r| ==> MergeTaken(l[i].taken, r[i].taken).Some?
  }

  function MergeEdge(l: Edge, r: Edge): Edge
    requires MergeTaken(l.taken, r.taken).Some?
  {
    l.(taken := MergeTaken(l.taken, r.taken).value, excluded := l.excluded || r.excluded)
  }

  function MergedEdges(l: seq<Edge>, r: seq<Edge>): (edges: seq<Edge>)
    requires EdgesAdd(l, r)
    ensures |edges| == |l|
    ensures forall i :: 0 <= i < |l| ==> edges[i] == if i < |r| then MergeEdge(l[i], r[i]) else l[i]
  {
    seq(|l|, i requires 0 <= i < |l| => if i < |r| then MergeEdge(l[i], r[i]) else l[i])
  }

  /** `merge_branch_block`. */
  method MergeBlock(left: Block, right: Block) returns (r: Option<Block>)
    ensures r.Some? <==> EdgesAdd(left.edges, right.edges)
    ensures r.Some? ==> r.value == left.(edges := MergedEdges(left.edges, right.edges))
  {
    hide MergeTaken;
    var n := if |left.edges| < |right.edges| then |left.edges| else |right.edges|;
    var edges := left.edges;
    for i := 0 to n
      invariant |edges| == |left.edges|
      invariant forall k :: 0 <= k < i ==> MergeTaken(left.edges[k].taken, right.edges[k].taken).Some?
      invariant forall k :: 0 <= k < i ==> edges[k] == MergeEdge(left.edges[k], right.edges[k])
      invariant forall k :: i <= k < |edges| ==> edges[k] == left.edges[k]
    {
      var taken := MergeTaken(edges[i].taken, right.edges[i].taken);
      if taken.None? { return None; }
      var edge := edges[i].(taken := taken.value);
      if right.edges[i].excluded {
        edge := edge.(excluded := true);
      }
      edges := edges[i := edge];
    }
    assert EdgesAdd(left.edges, right.edges);
    assert edges == MergedEdges(left.edges, right.edges);
    return Some(left.(edges := edges));
  }

  lemma MergedValid(l: Block, r: Block)
    requires BlockValid(l) && EdgesAdd(l.edges, r.edges)
    ensures BlockValid(l.(edges := MergedEdges(l.edges, r.edges)))
  {
    hide MergeTaken;
  }

  // ----- Occurrences of a signature -----

  function Occurrences(blocks: seq<Block>, signature: Signature): nat {
    if blocks == [] then 0
    else Occurrences(blocks[..|blocks| - 1], signature) + if blocks[|blocks| - 1].signature == signature then 1 else 0
  }

  lemma {:induction false} OccurrencesAppend(a: seq<Block>, b: seq<Block>, signature: Signature)
    ensures Occurrences(a + b, signature) == Occurrences(a, signature) + Occurrences(b, signature)
  {
    if b == [] {
      assert a + b == a;
    } else {
      assert (a + b)[..|a + b| - 1] == a + b[..|b| - 1];
      OccurrencesAppend(a, b[..|b| - 1], signature);
    }
  }

  lemma OccurrencesNext(blocks: seq<Block>, n: nat, signature: Signature)
    requires n < |blocks|
    ensures Occurrences(blocks[..n + 1], signature) ==
            Occurrences(blocks[..n], signature) + if blocks[n].signature == signature then 1 else 0
  {
    assert blocks[..n + 1][..n] == blocks[..n];
  }

  lemma {:induction false} OccurrencesGrow(blocks: seq<Block>, m: nat, n: nat, signature: Signature)
    requires m <= n <= |blocks|
    ensures Occurrences(blocks[..m], signature) <= Occurrences(blocks[..n], signature)
  {
    if m < n {
      OccurrencesGrow(blocks, m, n - 1, signature);
      OccurrencesNext(blocks, n - 1, signature);
    }
  }

  /** `find_nth_signature`. */
  method FindNth(blocks: seq<Block>, signature: Signature, nth: nat) returns (r: Option<nat>)
    ensures r.Some? ==>
              r.value < |blocks| && blocks[r.value].signature == signature
              && Occurrences(blocks[..r.value], signature) == nth
    ensures r.None? <==> Occurrences(blocks, signature) <= nth
  {
    hide Occurrences;
    var seen := 0;
    NoOccurrences(blocks, signature);
    for i := 0 to |blocks|
      invariant seen == Occurrences(blocks[..i], signature) <= nth
    {
      OccurrencesNext(blocks, i, signature);
      if blocks[i].signature == signature {
        if seen == nth {
          OccurrencesGrow(blocks, i + 1, |blocks|, signature);
          assert blocks[..|blocks|] == blocks;
          return Some(i);
        }
        seen := seen + 1;
      }
    }
    assert blocks[..|blocks|] == blocks;
    return None;
  }

  lemma NoOccurrences(blocks: seq<Block>, signature: Signature)
    ensures Occurrences(blocks[..0], signature) == 0
  {}

  /** Block `i` of the left line and block `j` of the right one are the same occurrence of the
      same signature. */
  predicate Paired(l: seq<Block>, r: seq<Block>, i: int, j: int) {
    && 0 <= i < |l| && 0 <= j < |r| && l[i].signature == r[j].signature
    && Occurrences(l[..i], l[i].signature) == Occurrences(r[..j], l[i].signature)
  }

  /** Block `i` of the left line has a partner. */
  predicate Matched(l: seq<Block>, r: seq<Block>, i: int) {
    0 <= i < |l| && Occurrences(l[..i], l[i].signature) < Occurrences(r, l[i].signature)
  }

  /** A block has at most one partner, on either side. */
  lemma PairedOnce(l: seq<Block>, r: seq<Block>, i: int, j: int, k: int)
    requires Paired(l, r, i, j) && Paired(l, r, i, k)
    ensures j == k
  {
    hide Occurrences;
    var signature := l[i].signature;
    if j < k {
      OccurrencesNext(r, j, signature);
      OccurrencesGrow(r, j + 1, k, signature);
    } else if k < j {
      OccurrencesNext(r, k, signature);
      OccurrencesGrow(r, k + 1, j, signature);
    }
  }

  lemma PairedSymmetric(l: seq<Block>, r: seq<Block>, i: int, j: int)
    ensures Paired(l, r, i, j) <==> Paired(r, l, j, i)
  {}

  lemma MatchedIff(l: seq<Block>, r: seq<Block>, i: int)
    requires 0 <= i < |l|
    ensures Matched(l, r, i) <==> exists j :: Paired(l, r, i, j)
  {
    hide Occurrences;
    var signature := l[i].signature;
    if j :| Paired(l, r, i, j) {
      OccurrencesNext(r, j, signature);
      OccurrencesGrow(r, j + 1, |r|, signature);
      assert r[..|r|] == r;
    }
    if Matched(l, r, i) {
      var j := Reach(r, signature, Occurrences(l[..i], signature));
      assert Paired(l, r, i, j);
    }
  }

  lemma {:induction false} Reach(blocks: seq<Block>, signature: Signature, nth: nat) returns (j: nat)
    requires nth < Occurrences(blocks, signature)
    ensures j < |blocks| && blocks[j].signature == signature && Occurrences(blocks[..j], signature) == nth
  {
    var init, last := blocks[..|blocks| - 1], |blocks| - 1;
    if nth < Occurrences(init, signature) {
      j := Reach(init, signature, nth);
      assert init[..j] == blocks[..j];
    } else {
      j := last;
    }
  }
}
