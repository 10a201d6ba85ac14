/** Numbers as they are spelled: what every lexeme of the grammar is read as, which counts are above
    zero, and how many groups are hit. */
module Numbers {
  import opened Wrappers
  import opened Text
  import opened Decimal
  import opened DigitStrings
  import opened Lexemes
  import opened Counters
  import opened Functions
  import opened FunctionText

  // ----- The grammar -----

  /** A sign, digits, a point with digits, and an exponent; most of it may be missing. */
  datatype Spelling = Spelling(sign: string, whole: string, point: bool, fraction: string, exponent: Option<Exponent>)

  datatype Exponent = Exponent(letter: char, sign: string, digits: string)

  predicate IsSignText(sign: string) {
    sign == "" || sign == "+" || sign == "-"
  }

  predicate WellSpelled(n: Spelling) {
    && IsSignText(n.sign) && AllDigits(n.whole) && AllDigits(n.fraction) && (n.whole != [] || n.fraction != [])
    && (!n.point ==> n.fraction == [])
    && (n.exponent.Some? ==>
          && (n.exponent.value.letter == 'e' || n.exponent.value.letter == 'E')
          && IsSignText(n.exponent.value.sign) && n.exponent.value.digits != [] && AllDigits(n.exponent.value.digits))
  }

  function Mantissa(n: Spelling): string {
    if n.point then n.whole + ['.'] + n.fraction else n.whole
  }

  function ExponentText(n: Spelling): string {
    match n.exponent case None => "" case Some(e) => [e.letter] + (e.sign + e.digits)
  }

  function Spelled(n: Spelling): string {
    n.sign + (Mantissa(n) + ExponentText(n))
  }

  function ExponentValue(n: Spelling): int
    requires WellSpelled(n)
  {
    match n.exponent
    case None => 0
    case Some(e) => if e.sign == "-" then 0 - Value(e.digits) else Value(e.digits)
  }

  lemma SignedText(sign: string, rest: string)
    requires IsSignText(sign) && rest != [] && !IsSign(rest[0])
    ensures Unsigned(sign + rest) == rest && (HasMinus(sign + rest) <==> sign == "-")
  {
    if sign != "" {
      assert (sign + rest)[1..] == rest && (sign + rest)[0] == sign[0];
    } else {
      assert sign + rest == rest;
    }
  }

  lemma MantissaChars(n: Spelling)
    requires WellSpelled(n)
    ensures var m := Mantissa(n);
            && m != [] && !IsSign(m[0]) && (forall i :: 0 <= i < |m| ==> !IsE(m[i])) && IsMantissa(m)
            && FirstDot(m) == |n.whole|
  {
    var m := Mantissa(n);
    assert forall i :: 0 <= i < |n.whole| ==> m[i] == n.whole[i] && IsDigit(m[i]);
    if n.point {
      assert forall i :: |n.whole| < i < |m| ==> m[i] == n.fraction[i - |n.whole| - 1] && IsDigit(m[i]);
      assert m[|n.whole|] == '.';
      if n.whole == [] {
        assert IsDigit(m[1]);
      } else {
        assert IsDigit(m[0]);
      }
    } else {
      assert IsDigit(m[0]);
    }
    FirstDotIs(m, |n.whole|);
  }

  lemma {:induction false} FirstDotIs(s: string, k: nat)
    requires k <= |s| && (forall i :: 0 <= i < k ==> s[i] != '.') && (k < |s| ==> s[k] == '.')
    ensures FirstDot(s) == k
  {
    if k > 0 {
      FirstDotIs(s[1..], k - 1);
    }
  }

  lemma {:induction false} FirstEIs(s: string, k: nat)
    requires k <= |s| && (forall i :: 0 <= i < k ==> !IsE(s[i])) && (k < |s| ==> IsE(s[k]))
    ensures FirstE(s) == k
  {
    if k > 0 {
      FirstEIs(s[1..], k - 1);
    }
  }

  /** The sign, the mantissa and the exponent of a spelled number, as the reader takes it apart. */
  lemma SpelledShape(n: Spelling)
    requires WellSpelled(n)
    ensures var text, m, x := Spelled(n), Mantissa(n), ExponentText(n);
            && Unsigned(text) == m + x && (HasMinus(text) <==> n.sign == "-") && FirstE(m + x) == |m|
            && (m + x)[..|m|] == m && (x == [] <==> n.exponent.None?)
            && (n.exponent.Some? ==> (m + x)[|m| + 1..] == n.exponent.value.sign + n.exponent.value.digits)
  {
    hide IsMantissa, Mantissa, FirstE, Unsigned, HasMinus, FirstDot;
    var m, x := Mantissa(n), ExponentText(n);
    MantissaChars(n);
    SignedText(n.sign, m + x);
    FirstEIs(m + x, |m|);
  }

  /** Every spelled number is a number, read as its parts unless the exponent needs more than 32 bits. */
  lemma SpelledIsRead(n: Spelling)
    requires WellSpelled(n)
    ensures IsNumber(Spelled(n))
    ensures PartsOf(Spelled(n)) ==
            if -0x8000_0000 <= ExponentValue(n) < 0x8000_0000
            then Some(Parts(n.sign == "-", n.whole, n.fraction, ExponentValue(n))) else None
  {
    hide IsMantissa, Value, Mantissa, ExponentOf, FirstE, Unsigned, HasMinus, FirstDot, Spelled, ExponentText,
         IsExponent, AllDigits;
    SpelledShape(n);
    MantissaChars(n);
    MantissaFields(n);
    if n.exponent.Some? {
      ExponentRead(n.exponent.value);
    }
  }

  lemma MantissaFields(n: Spelling)
    requires WellSpelled(n)
    ensures var m, d := Mantissa(n), |n.whole|;
            d <= |m| && m[..d] == n.whole && (if d == |m| then [] else m[d + 1..]) == n.fraction
  {}

  lemma ExponentRead(e: Exponent)
    requires IsSignText(e.sign) && e.digits != [] && AllDigits(e.digits)
    ensures IsExponent(e.sign + e.digits)
    ensures var v := if e.sign == "-" then 0 - Value(e.digits) else Value(e.digits);
            ExponentOf(e.sign + e.digits) == if -0x8000_0000 <= v < 0x8000_0000 then Some(v) else None
  {
    hide Value, Unsigned, HasMinus;
    assert IsDigit(e.digits[0]);
    SignedText(e.sign, e.digits);
  }

  /** Every number is spelled in this way. */
  lemma NumberIsSpelled(text: string) returns (n: Spelling)
    requires IsNumber(text)
    ensures WellSpelled(n) && text == Spelled(n)
  {
    hide Unsigned, FirstE, FirstDot, IsMantissa, HasSign, Spelled, SignOf;
    var rest := Unsigned(text);
    var k := FirstE(rest);
    var whole, point, fraction := MantissaIsSpelled(rest[..k]);
    var exponent := None;
    assert rest[k..] == if k < |rest| then [rest[k]] + rest[k + 1..] else [];
    if k < |rest| {
      var x := rest[k + 1..];
      exponent := Some(Exponent(rest[k], SignOf(x), Unsigned(x)));
    }
    n := Spelling(SignOf(text), whole, point, fraction, exponent);
    assert rest == rest[..k] + rest[k..];
    assert Mantissa(n) == rest[..k] && ExponentText(n) == rest[k..];
    SpelledIs(n);
  }

  lemma SpelledIs(n: Spelling)
    ensures Spelled(n) == n.sign + (Mantissa(n) + ExponentText(n))
  {}

  lemma MantissaIsSpelled(m: string) returns (whole: string, point: bool, fraction: string)
    requires IsMantissa(m)
    ensures AllDigits(whole) && AllDigits(fraction) && (whole != [] || fraction != []) && (!point ==> fraction == [])
    ensures m == if point then whole + ['.'] + fraction else whole
  {
    SplitMantissa(m);
    var d := FirstDot(m);
    whole, point, fraction := m[..d], d < |m|, if d == |m| then [] else m[d + 1..];
  }

  function SignOf(text: string): (sign: string)
    ensures IsSignText(sign) && text == sign + Unsigned(text)
  {
    if HasSign(text) then [text[0]] else ""
  }

  // ----- Above zero -----

  lemma NonzeroDigit(text: string)
    requires PartsOf(text).Some?
    ensures var p := PartsOf(text).value; HasNonzeroDigit(text) <==> Value(p.whole + p.fraction) > 0
  {
    hide Value, PartsOf, Unsigned, FirstE, Spelled, Mantissa, WellSpelled, ExponentValue;
    var n := NumberOfParts(text);
    SpelledIsRead(n);
    SpelledShape(n);
    DigitsOfMantissa(n);
    assert forall i :: 0 <= i < |Mantissa(n)| ==> (Mantissa(n) + ExponentText(n))[i] == Mantissa(n)[i];
  }

  lemma NumberOfParts(text: string) returns (n: Spelling)
    requires PartsOf(text).Some?
    ensures WellSpelled(n) && text == Spelled(n)
  {
    hide IsMantissa, IsExponent;
    n := NumberIsSpelled(text);
  }

  lemma DigitsOfMantissa(n: Spelling)
    requires WellSpelled(n)
    ensures AllDigits(n.whole + n.fraction)
    ensures Value(n.whole + n.fraction) > 0 <==>
              exists i :: 0 <= i < |Mantissa(n)| && IsDigit(Mantissa(n)[i]) && Mantissa(n)[i] != '0'
  {
    hide Value;
    var m, digits := Mantissa(n), n.whole + n.fraction;
    ZeroValue(digits);
    forall i | 0 <= i < |digits| ensures digits[i] == m[if i < |n.whole| then i else i + 1] && IsDigit(digits[i]) {}
    if i :| 0 <= i < |m| && IsDigit(m[i]) && m[i] != '0' {
      var j := if i < |n.whole| then i else i - 1;
      assert digits[j] == m[i];
    }
    if i :| 0 <= i < |digits| && digits[i] != '0' {
      var j := if i < |n.whole| then i else i + 1;
      assert m[j] == digits[i] && IsDigit(m[j]);
    }
  }

  lemma DenotesZero(p: Parts, x: int, s: nat)
    requires GoodParts(p) && Denotes(p, x, s)
    ensures x == 0 <==> Value(p.whole + p.fraction) == 0
  {
    hide Value, Pow10;
    var v, shift := Signed(p.negative, Value(p.whole + p.fraction)), p.exponent - |p.fraction| + s;
    if shift >= 0 {
      Nonzero(v, Pow10(shift));
    } else {
      Nonzero(x, Pow10(-shift));
    }
  }

  lemma Nonzero(v: int, p: nat)
    requires p > 0
    ensures v * p == 0 <==> v == 0
  {}

  /** Of the counters that the parser keeps, those are positive that stand for a number above zero. */
  lemma PositiveIff(c: Count, x: int, s: nat)
    requires IsKept(c) && StandsFor(c, x, s)
    ensures IsPositive(c) <==> x > 0
  {
    hide PartsOf, Denotes, ClassOf, HasNonzeroDigit, IsNegative, Value;
    KeptNotNegative(c, x, s);
    if !c.coercedZero {
      NonzeroDigit(c.lexeme);
      DenotesZero(PartsOf(c.lexeme).value, x, s);
    }
  }

  /** The seven spellings of something that is no number but is kept, in any case. */
  predicate IsSpecial(text: string) {
    var lower := Lower(text);
    || lower == "nan" || lower == "inf" || lower == "+inf" || lower == "-inf"
    || lower == "infinity" || lower == "+infinity" || lower == "-infinity"
  }

  /** A fresh count is coerced to zero when it is a number below zero, or no number and not one of the
      seven; it keeps its text. */
  lemma CoercedIff(text: string)
    ensures var c := Coerced(Count(text, false));
            && c.lexeme == text
            && (IsNumber(text) ==> (c.coercedZero <==> text[..1] == "-" && HasNonzeroDigit(text)))
            && (!IsNumber(text) ==> (c.coercedZero <==> !IsSpecial(text)))
    ensures forall x: int, s: nat :: PartsOf(text).Some? && Denotes(PartsOf(text).value, x, s) ==>
              (Coerced(Count(text, false)).coercedZero <==> x < 0)
  {
    hide PartsOf, Denotes, HasNonzeroDigit, IsNumber, Value;
    if IsNumber(text) {
      NumberIsFinite(text);
      NumberNotEmpty(text);
    }
    forall x: int, s: nat | PartsOf(text).Some? && Denotes(PartsOf(text).value, x, s)
      ensures Coerced(Count(text, false)).coercedZero <==> x < 0
    {
      NumberOf(text);
      NegativeIff(text, x, s);
    }
  }

  lemma NumberNotEmpty(text: string)
    requires IsNumber(text)
    ensures text != []
  {
    var m := Unsigned(text)[..FirstE(Unsigned(text))];
    assert IsMantissa(m);
  }

  lemma NegativeIff(text: string, x: int, s: nat)
    requires PartsOf(text).Some? && Denotes(PartsOf(text).value, x, s)
    ensures HasMinus(text) && HasNonzeroDigit(text) <==> x < 0
  {
    hide PartsOf, Denotes, HasNonzeroDigit, Value, HasMinus;
    PartsSign(text);
    NonzeroDigit(text);
    DenotesZero(PartsOf(text).value, x, s);
    DenotesSign(PartsOf(text).value, x, s);
  }

  lemma DenotesSign(p: Parts, x: int, s: nat)
    requires GoodParts(p) && Denotes(p, x, s)
    ensures if p.negative then x <= 0 else x >= 0
  {
    hide Value, Pow10;
    var v: int := Value(p.whole + p.fraction);
    var m, shift := Signed(p.negative, v), p.exponent - |p.fraction| + s;
    if shift >= 0 {
      SignOfProduct(m, Pow10(shift));
    } else {
      SignOfProduct(x, Pow10(-shift));
    }
  }

  lemma SignOfProduct(v: int, p: nat)
    requires p > 0
    ensures (v >= 0 <==> v * p >= 0) && (v <= 0 <==> v * p <= 0)
  {}

  /** What is kept but is no number does not add up with anything that is not coerced to zero. */
  lemma SpecialsRefuse(a: Count, b: Count)
    requires !a.coercedZero && !b.coercedZero && (IsSpecial(a.lexeme) || IsSpecial(b.lexeme))
    ensures Plus(a, b) == None
  {
    hide SumText, IsNumber;
  }

  /** The count is a number above zero. */
  ghost predicate AboveZero(c: Count) {
    exists x: int, s: nat :: x > 0 && StandsFor(c, x, s)
  }

  ghost predicate Countable(c: Count) {
    IsKept(c) && exists x: int, s: nat :: StandsFor(c, x, s)
  }

  /** The summaries tell how many groups there are, and how many have a count above zero. */
  lemma SummaryCounts(groups: Groups)
    requires forall s, a :: s in groups && a in groups[s].aliases ==> Countable(groups[s].aliases[a])
    ensures var hit := set s | s in groups && exists a :: a in groups[s].aliases && AboveZero(groups[s].aliases[a]);
            SummaryLines(groups) == ["FNF:" + Print(|groups|), "FNH:" + Print(|hit|)]
  {
    hide StandsFor, IsKept, IsPositive, Print;
    forall s, a | s in groups && a in groups[s].aliases
      ensures IsPositive(groups[s].aliases[a]) <==> AboveZero(groups[s].aliases[a])
    {
      var c := groups[s].aliases[a];
      var x: int, t: nat :| StandsFor(c, x, t);
      PositiveIff(c, x, t);
      if AboveZero(c) {
        var y: int, u: nat :| y > 0 && StandsFor(c, y, u);
        PositiveIff(c, y, u);
      }
    }
    var hit := set s | s in groups && exists a :: a in groups[s].aliases && AboveZero(groups[s].aliases[a]);
    assert hit == set s | s in groups && IsHit(groups[s]);
  }
}
