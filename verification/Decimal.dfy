/**
 Decimal printing as Python's `f"{n}"` and `f"{n:05}"` do it, with the reader that
 inverts it. Distinct coverage keys stay distinct only because printing is injective.
 */
module Decimal {

  function Digit(d: nat): (c: char)
    requires d < 10
    ensures '0' <= c <= '9'
    ensures c as int - '0' as int == d
  {
    ('0' as int + d) as char
  }

  predicate IsDigit(c: char) {
    '0' <= c <= '9'
  }

  predicate AllDigits(s: string) {
    forall i :: 0 <= i < |s| ==> IsDigit(s[i])
  }

  /** `f"{n}"` for a non-negative integer. */
  function Print(n: nat): (s: string)
    ensures s != [] && AllDigits(s)
  {
    if n < 10 then [Digit(n)] else Print(n / 10) + [Digit(n % 10)]
  }

  function Zeros(k: nat): (s: string)
    ensures |s| == k && AllDigits(s)
  {
    seq(k, _ => '0')
  }

  /** `f"{n:05}"`: zero padded to at least five characters. */
  function PrintPadded(n: nat): (s: string)
    ensures |s| >= 5 && AllDigits(s)
  {
    var digits := Print(n);
    if |digits| < 5 then Zeros(5 - |digits|) + digits else digits
  }

  /** The number a digit string denotes; leading zeros do not matter. */
  function Value(s: string): (n: nat)
    requires AllDigits(s)
  {
    if s == [] then 0
    else
      Value(s[..|s| - 1]) * 10 + (s[|s| - 1] as int - '0' as int)
  }

  lemma {:induction false} ValueOfPrint(n: nat)
    ensures Value(Print(n)) == n
  {
    var s := Print(n);
    if n < 10 {
      assert s[..|s| - 1] == [];
    } else {
      ValueOfPrint(n / 10);
      assert s[..|s| - 1] == Print(n / 10);
    }
  }

  lemma {:induction false} ValueOfPadding(k: nat, s: string)
    requires AllDigits(s)
    ensures Value(Zeros(k) + s) == Value(s)
  {
    var padded := Zeros(k) + s;
    if s != [] {
      assert padded[..|padded| - 1] == Zeros(k) + s[..|s| - 1];
      ValueOfPadding(k, s[..|s| - 1]);
    } else if k > 0 {
      assert padded == Zeros(k);
      assert padded[..|padded| - 1] == Zeros(k - 1) + s;
      ValueOfPadding(k - 1, s);
    }
  }

  lemma ValueOfPrintPadded(n: nat)
    ensures Value(PrintPadded(n)) == n
  {
    ValueOfPrint(n);
    if |Print(n)| < 5 {
      ValueOfPadding(5 - |Print(n)|, Print(n));
    }
  }

  /** Both printers are injective: the number can be read back from the text. */
  lemma PrintInjective(m: nat, n: nat)
    ensures Print(m) == Print(n) ==> m == n
    ensures PrintPadded(m) == PrintPadded(n) ==> m == n
  {
    ValueOfPrint(m);
    ValueOfPrint(n);
    ValueOfPrintPadded(m);
    ValueOfPrintPadded(n);
  }

  /** Only zeros denote zero. */
  lemma {:induction false} ZeroValue(s: string)
    requires AllDigits(s)
    ensures Value(s) == 0 <==> forall i :: 0 <= i < |s| ==> s[i] == '0'
  {
    if s != [] {
      var init := s[..|s| - 1];
      ZeroValue(init);
      assert forall i :: 0 <= i < |init| ==> init[i] == s[i];
    }
  }
}
