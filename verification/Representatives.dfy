/** Which alias of a group is its representative, told by lengths and bytes. */
module Representatives {
  import opened Text
  import opened Ordering
  import opened Functions

  // ----- Byte order -----

  /** The first place where two names differ, or the end of the shorter one, decides. */
  ghost predicate ComesBefore(a: Name, b: Name) {
    exists k :: 0 <= k <= |a| && k <= |b| && a[..k] == b[..k] && EarlierAt(a, b, k)
  }

  predicate EarlierAt(a: Name, b: Name, k: nat)
    requires k <= |a| && k <= |b|
  {
    k < |b| && (k == |a| || a[k] < b[k])
  }

  lemma {:induction false} LexIsByteOrder(a: Name, b: Name)
    ensures LexLeq(a, b) <==> a == b || ComesBefore(a, b)
  {
    if a == [] {
      if b != [] { assert EarlierAt(a, b, 0); }
    } else if b != [] {
      var s, t := a[1..], b[1..];
      LexIsByteOrder(s, t);
      assert a == [a[0]] + s && b == [b[0]] + t;
      if a[0] < b[0] {
        assert EarlierAt(a, b, 0);
      } else if a[0] == b[0] && ComesBefore(s, t) {
        var k :| 0 <= k <= |s| && k <= |t| && s[..k] == t[..k] && EarlierAt(s, t, k);
        assert a[..k + 1] == [a[0]] + s[..k] && b[..k + 1] == [b[0]] + t[..k];
        assert EarlierAt(a, b, k + 1);
      }
      if k :| 0 <= k <= |a| && k <= |b| && a[..k] == b[..k] && EarlierAt(a, b, k) {
        if k > 0 {
          assert a[..k][0] == b[..k][0];
          assert s[..k - 1] == a[..k][1..] && t[..k - 1] == b[..k][1..];
          assert EarlierAt(s, t, k - 1);
        }
      }
    }
  }

  // ----- Lambda names -----

  /** The name is made of the mark and whatever stands before and after it. */
  ghost predicate Marked(name: Name, mark: string) {
    exists before, after :: name == Around(before, mark, after)
  }

  function Around(before: string, mark: string, after: string): string {
    before + mark + after
  }

  ghost predicate LambdaName(name: Name) {
    Marked(name, "{lambda(") || Marked(name, ".lambda$")
  }

  lemma ContainsIsMarked(name: Name, mark: string)
    ensures Contains(name, mark) <==> Marked(name, mark)
  {
    if Contains(name, mark) {
      var i :| 0 <= i <= |name| && OccursAt(name, mark, i);
      assert name == Around(name[..i], mark, name[i + |mark|..]);
    }
    if before, after :| name == Around(before, mark, after) {
      assert name[|before|..|before| + |mark|] == mark;
      assert OccursAt(name, mark, |before|);
    }
  }

  /** The length that counts: lambda names are taken for a thousand characters longer. */
  ghost function Weight(name: Name): nat {
    if LambdaName(name) then |name| + 1000 else |name|
  }

  lemma WeightIs(name: Name)
    ensures EffectiveLength(name) == Weight(name)
  {
    hide Contains, Marked;
    ContainsIsMarked(name, "{lambda(");
    ContainsIsMarked(name, ".lambda$");
  }

  // ----- The representative -----

  /** A group is valid exactly when its representative is one of its aliases, none weighs less, and
      none of the same weight comes before it in byte order. */
  lemma RepresentativeIff(g: Group)
    ensures GroupValid(g) <==>
              && g.representative in g.aliases
              && (forall n :: n in g.aliases ==> Weight(g.representative) <= Weight(n))
              && (forall n :: n in g.aliases && Weight(n) == Weight(g.representative) ==>
                    !ComesBefore(n, g.representative))
  {
    hide EffectiveLength, Weight, ComesBefore, LexLeq;
    var r := g.representative;
    WeightIs(r);
    forall n | n in g.aliases && n != r
      ensures Prefers(r, n) <==>
                Weight(r) <= Weight(n) && (Weight(n) == Weight(r) ==> !ComesBefore(n, r))
    {
      WeightIs(n);
      LexTotal(r, n);
      LexIsByteOrder(n, r);
    }
    LexIsByteOrder(r, r);
    NotBeforeItself(r);
  }

  lemma NotBeforeItself(r: Name)
    ensures !ComesBefore(r, r)
  {}

  /** A name that is no lambda and has at most a thousand characters is never passed over for a
      lambda. */
  lemma LambdaLast(g: Group, n: Name)
    requires GroupValid(g) && n in g.aliases && !LambdaName(n) && |n| <= 1000
    ensures !LambdaName(g.representative)
  {
    hide GroupValid, LambdaName, ComesBefore;
    RepresentativeIff(g);
    if LambdaName(g.representative) {
      MarkedLength(g.representative);
    }
  }

  lemma MarkedLength(name: Name)
    requires LambdaName(name)
    ensures name != []
  {}
}
