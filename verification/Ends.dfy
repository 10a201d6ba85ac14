/** Which end a group keeps when its record is repeated with another one. */
module Ends {
  import opened Wrappers
  import opened Text
  import opened Decimal
  import opened DigitStrings
  import opened Ordering

  const U128_LIMIT := 0x1_0000_0000_0000_0000_0000_0000_0000_0000

  /** The text of a number that an unsigned integer of 128 bits holds. */
  predicate Fits(s: string) {
    s != [] && AllDigits(s) && Value(s) < U128_LIMIT
  }

  /** `end_is_greater`: by number where both fit, otherwise by text. */
  predicate EndIsGreater(candidate: string, current: string) {
    var c, d := Stripped(candidate), Stripped(current);
    if Fits(c) && Fits(d) then Value(c) > Value(d) else c != d && LexLeq(d, c)
  }

  /** The end that a repeated group gets. */
  function WiderEnd(current: Option<string>, end: Option<string>): Option<string> {
    if end.Some? && (current.None? || EndIsGreater(end.value, current.value)) then end else current
  }

  /** The end after a list of records at one start. */
  function LastEnd(ends: seq<Option<string>>): Option<string> {
    if ends == [] then None else WiderEnd(LastEnd(ends[..|ends| - 1]), ends[|ends| - 1])
  }

  // ----- Numbers that fit -----

  predicate EndFits(end: Option<string>) {
    end.Some? ==> Fits(Stripped(end.value))
  }

  function EndValue(end: string): nat
    requires Fits(Stripped(end))
  {
    Value(Stripped(end))
  }

  /** Of ends that fit, the greatest one is kept, whatever the order of the records; there is none
      exactly when no record has one. */
  lemma {:induction false} GreatestEnd(ends: seq<Option<string>>)
    requires forall i :: 0 <= i < |ends| ==> EndFits(ends[i])
    ensures LastEnd(ends).None? <==> forall i :: 0 <= i < |ends| ==> ends[i].None?
    ensures LastEnd(ends).Some? ==>
              && LastEnd(ends) in ends && EndFits(LastEnd(ends))
              && forall i :: 0 <= i < |ends| && ends[i].Some? ==>
                   EndFits(ends[i]) && EndValue(ends[i].value) <= EndValue(LastEnd(ends).value)
  {
    hide Fits, Stripped, LexLeq;
    if ends != [] {
      var init, last := ends[..|ends| - 1], ends[|ends| - 1];
      assert forall i :: 0 <= i < |init| ==> init[i] == ends[i];
      GreatestEnd(init);
      NumericallyGreater(last, LastEnd(init));
    }
  }

  lemma NumericallyGreater(end: Option<string>, current: Option<string>)
    requires EndFits(end) && EndFits(current)
    ensures end.Some? && current.Some? ==>
              (EndIsGreater(end.value, current.value) <==> EndValue(end.value) > EndValue(current.value))
  {}

  // ----- Numbers that do not -----

  /** Digits without white space and without a leading zero. */
  predicate IsNumeral(s: string) {
    s != [] && AllDigits(s) && s[0] != '0'
  }

  lemma {:induction false} LexOfEqualLengths(c: string, d: string)
    requires |c| == |d|
    ensures LexLeq(d, c) <==> LexOrder(d, c) != Greater
    ensures LexOrder(d, c) == Equal <==> c == d
  {
    if c != [] {
      LexOfEqualLengths(c[1..], d[1..]);
      assert c == [c[0]] + c[1..] && d == [d[0]] + d[1..];
    }
  }

  lemma NumeralStripped(s: string)
    requires IsNumeral(s)
    ensures Stripped(s) == s
  {}

  /** The comparison is numeric exactly when both numbers fit, their lengths are the same, or the
      longer one also comes later as text. */
  lemma EndIsGreaterIff(c: string, d: string)
    requires IsNumeral(c) && IsNumeral(d)
    ensures (EndIsGreater(c, d) <==> Value(c) > Value(d)) <==>
              || (Fits(c) && Fits(d)) || |c| == |d|
              || (if |c| > |d| then LexLeq(d, c) else !LexLeq(d, c))
  {
    hide Stripped, Value, LexLeq, LexOrder;
    NumeralStripped(c);
    NumeralStripped(d);
    if |c| == |d| {
      LexOfEqualLengths(c, d);
      LexMeans(d, c);
      LexMeans(c, d);
    } else if |c| > |d| {
      LongerIsGreater(c, d);
    } else {
      LongerIsGreater(d, c);
    }
  }

  /** The greatest number that fits. */
  lemma FitsMeans(s: string)
    ensures Fits(s) <==> s != [] && AllDigits(s) && Value(s) <= 340282366920938463463374607431768211455
  {}

  /** Five followed by 39 zeros, which takes more than 128 bits. */
  const LONG: string := "5" + Zeros(39)

  lemma LongDoesNotFit()
    ensures IsNumeral(LONG) && !Fits(LONG)
  {
    hide Value, Pow10;
    assert LONG[0] == '5';
    ValueFloor(LONG);
    TenTo39();
  }

  lemma TenTo13()
    ensures Pow10(13) == 10_000_000_000_000
  {
    hide Pow10;
    TenTo3();
    PowSum(3, 3);
    PowSum(6, 6);
    PowSum(12, 1);
  }

  lemma TenTo3()
    ensures Pow10(1) == 10 && Pow10(3) == 1000
  {
    assert Pow10(0) == 1 && Pow10(2) == 100;
  }

  lemma TenTo39()
    ensures Pow10(39) > U128_LIMIT
  {
    hide Pow10;
    TenTo13();
    PowSum(13, 13);
    PowSum(26, 13);
  }

  /** Such an end is beaten by `9`, which is beaten by `10`, which is beaten by it: which end is kept
      depends on the order of the records. */
  lemma EndsInCircles()
    ensures EndIsGreater("9", LONG) && EndIsGreater("10", "9") && EndIsGreater(LONG, "10")
    ensures LastEnd([Some("9"), Some("10"), Some(LONG)]) == Some(LONG)
    ensures LastEnd([Some(LONG), Some("9"), Some("10")]) == Some("10")
  {
    hide Fits, Zeros, Stripped, Value;
    LongDoesNotFit();
    assert LONG[0] == '5';
    NumeralStripped("9");
    NumeralStripped("10");
    NumeralStripped(LONG);
    SmallEnds();
    LastOfThree("9", "10", LONG);
    LastOfThree(LONG, "9", "10");
  }

  lemma SmallEnds()
    ensures Fits("9") && Fits("10") && Value("9") == 9 && Value("10") == 10
  {
    assert "9"[..0] == "" && "10"[..1] == "1" && "1"[..0] == "";
  }

  lemma LastOfThree(a: string, b: string, c: string)
    ensures LastEnd([Some(a), Some(b), Some(c)]) == WiderEnd(WiderEnd(Some(a), Some(b)), Some(c))
  {
    hide EndIsGreater;
    var ends := [Some(a), Some(b), Some(c)];
    var two, one := [Some(a), Some(b)], [Some(a)];
    assert ends[..2] == two && two[..1] == one && one[..0] == [];
    assert LastEnd(one) == WiderEnd(None, Some(a)) == Some(a);
    assert LastEnd(two) == WiderEnd(Some(a), Some(b));
  }
}
