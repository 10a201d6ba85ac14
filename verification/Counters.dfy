/**
 Coverage counters: a lexeme, or the zero it was coerced to. Validation, addition, and when sums
 of counters do not depend on how they are bracketed.
 */
module Counters {
  import opened Wrappers
  import opened Text
  import opened Decimal
  import opened DigitStrings
  import opened Lexemes

  datatype NumericClass = Finite | Nan | PositiveInfinity | NegativeInfinity | NonNumeric

  /** The class of a lexeme, whose surrounding white space is already gone. */
  function ClassOf(lexeme: string): NumericClass {
    var lower := Lower(lexeme);
    if lower == "nan" then Nan
    else if lower in {"inf", "+inf", "infinity", "+infinity"} then PositiveInfinity
    else if lower in {"-inf", "-infinity"} then NegativeInfinity
    else if IsNumber(lexeme) then Finite
    else NonNumeric
  }

  datatype Count = Count(lexeme: string, coercedZero: bool)

  const ZERO := Count("0", false)

  /** `is_positive`. */
  predicate IsPositive(c: Count) {
    !c.coercedZero && ClassOf(c.lexeme) == Finite && HasNonzeroDigit(c.lexeme) && !IsNegative(c.lexeme)
  }

  datatype Validation = Valid | CoerceToZero | Excessive

  /** `validate`, with an optional threshold. */
  function Validate(c: Count, threshold: Option<string>): Validation {
    if c.coercedZero then Valid
    else match ClassOf(c.lexeme)
      case NonNumeric => CoerceToZero
      case Finite =>
        if IsNegative(c.lexeme) then CoerceToZero
        else if threshold.Some? && CompareLexemes(c.lexeme, threshold.value) == Some(Greater) then Excessive
        else Valid
      case _ => Valid
  }

  /** `coerce_invalid_to_zero`. */
  function Coerced(c: Count): Count {
    if Validate(c, None) == CoerceToZero then c.(coercedZero := true) else c
  }

  /** `CoverageCount::add`; a sum that cannot be formed is an error. */
  function Plus(a: Count, b: Count): Option<Count> {
    if a.coercedZero && b.coercedZero then Some(ZERO)
    else if a.coercedZero then Some(b)
    else if b.coercedZero then Some(a)
    else if ClassOf(a.lexeme) != Finite || ClassOf(b.lexeme) != Finite then None
    else match SumText(a.lexeme, b.lexeme)
      case None => None
      case Some(text) => Some(Count(text, false))
  }

  lemma PlusCommutes(a: Count, b: Count)
    ensures Plus(a, b) == Plus(b, a)
  {
    hide ClassOf, SumText;
    AddCommutes(a.lexeme, b.lexeme);
  }

  // ----- Canonical counters -----

  /** A plain, shortest, nonnegative number. */
  ghost predicate Canonical(c: Count) {
    !c.coercedZero && exists n: nat, s: nat :: c.lexeme == TextOf(n, s)
  }

  /** Whether something can be added to a canonical counter does not depend on the counter. */
  lemma PlusAlike(a: Count, b: Count, c: Count)
    requires Canonical(a) && Canonical(b)
    ensures Plus(a, c).Some? <==> Plus(b, c).Some?
  {
    hide TextOf, PartsOf, ClassOf, IsNegative, NormalForm, Total, CommonScale;
    var n: nat, s: nat :| a.lexeme == TextOf(n, s);
    var m: nat, t: nat :| b.lexeme == TextOf(m, t);
    CanonicalFinite(n, s);
    CanonicalFinite(m, t);
  }

  /** Adding whatever the parser accepts as a count keeps a count canonical. */
  lemma PlusCanonical(a: Count, text: string)
    requires Canonical(a) && Plus(a, Coerced(Count(text, false))).Some?
    ensures Canonical(Plus(a, Coerced(Count(text, false))).value)
  {
    hide TextOf, PartsOf, Denotes, SumText, ClassOf, IsNegative, Pow10;
    if !Coerced(Count(text, false)).coercedZero {
      var n: nat, s: nat :| a.lexeme == TextOf(n, s);
      CanonicalFinite(n, s);
      if PartsOf(text).Some? {
        var x, t := Denoted(PartsOf(text).value);
        NotNegativeMeans(text, x, t);
        Raise(PartsOf(text).value, x, t, s + t);
        Raise(PartsOf(a.lexeme).value, n, s, s + t);
        SumExactIff(a.lexeme, text, n * Pow10(t), x * Pow10(s), s + t);
        CanonicalText(n * Pow10(t) + x * Pow10(s), s + t);
      } else {
        SumNeedsParts(a.lexeme, text);
      }
    }
  }

  lemma CanonicalText(n: int, s: nat)
    requires n >= 0
    ensures Canonical(Count(TextOf(n, s), false))
  {}

  lemma SumNeedsParts(left: string, text: string)
    requires PartsOf(text).None?
    ensures SumText(left, text).None?
  {
    hide PartsOf;
  }

  lemma ZeroClass()
    ensures ClassOf("0") == Finite && !IsNegative("0") && PartsOf("0") == Some(Parts(false, "0", "", 0))
  {
    PlainParts("0", []);
    assert Lower("0")[0] == '0';
  }

  lemma ZeroCanonical()
    ensures Canonical(ZERO)
  {
    assert TextOf(0, 0) == "0";
  }

  lemma ZeroPlus(text: string, x: int, s: nat)
    requires PartsOf(text).Some? && Denotes(PartsOf(text).value, x, s) && x >= 0
    ensures SumText("0", text) == Some(TextOf(x, s))
  {
    hide TextOf, PartsOf, SumText, Pow10, Value;
    ZeroClass();
    ZeroIsZero(s);
    SumExactIff("0", text, 0, x, s);
  }

  lemma ZeroIsZero(s: nat)
    ensures PartsOf("0").Some? && Denotes(PartsOf("0").value, 0, s)
  {
    hide PartsOf;
    TextDenotes(0, s);
    assert TextOf(0, s) == "0";
  }

  lemma CanonicalFinite(n: nat, s: nat)
    ensures PartsOf(TextOf(n, s)).Some? && Denotes(PartsOf(TextOf(n, s)).value, n, s)
    ensures ClassOf(TextOf(n, s)) == Finite && !IsNegative(TextOf(n, s))
  {
    hide PartsOf, Denotes, IsNumber;
    TextDenotes(n, s);
    TextStart(n, s);
    NumberOf(TextOf(n, s));
    StartsWithDigit(TextOf(n, s));
  }

  lemma TextStart(n: nat, s: nat)
    ensures TextOf(n, s) != [] && IsDigit(TextOf(n, s)[0])
  {
    hide Shortest, Pointed;
    if n > 0 {
      ShortestFacts(n, s);
      var w: nat, u: nat :| u <= s && w > 0 && Shortest(n, s) == Pointed(w, u) && n == w * Pow10(s - u);
      PointedStart(w, u);
      assert "" + Shortest(n, s) == Shortest(n, s);
    }
  }

  lemma NumberOf(text: string)
    requires PartsOf(text).Some?
    ensures IsNumber(text)
  {}

  lemma StartsWithDigit(text: string)
    requires text != [] && IsDigit(text[0]) && IsNumber(text)
    ensures ClassOf(text) == Finite && !IsNegative(text)
  {
    hide IsNumber;
    var lower := Lower(text);
    assert lower[0] == text[0];
    assert lower != "nan" && lower != "inf" && lower != "+inf" && lower != "infinity" && lower != "+infinity";
    assert lower != "-inf" && lower != "-infinity";
  }

  // ----- Exactness -----

  /** A counter as the parser keeps it. */
  predicate IsKept(c: Count) {
    Coerced(c) == c
  }

  /** The counter stands for `x / 10^s`. */
  ghost predicate StandsFor(c: Count, x: int, s: nat) {
    if c.coercedZero then x == 0 else PartsOf(c.lexeme).Some? && Denotes(PartsOf(c.lexeme).value, x, s)
  }

  /** Counters as a parser keeps them, those coerced to zero included, add up exactly, and the sum
      can be kept again. */
  lemma CoercedAddExactly(a: Count, b: Count, x: int, y: int, s: nat)
    requires IsKept(a) && IsKept(b) && StandsFor(a, x, s) && StandsFor(b, y, s)
    ensures x >= 0 && y >= 0
    ensures Plus(a, b).Some? && IsKept(Plus(a, b).value) && StandsFor(Plus(a, b).value, x + y, s)
    ensures !a.coercedZero && !b.coercedZero ==> Plus(a, b) == Some(Count(TextOf(x + y, s), false))
  {
    hide PartsOf, Denotes, SumText, TextOf, Pow10, IsNegative, ClassOf;
    KeptNotNegative(a, x, s);
    KeptNotNegative(b, y, s);
    if a.coercedZero && b.coercedZero {
      ZeroClass();
      ZeroIsZero(s);
    } else if !a.coercedZero && !b.coercedZero {
      SumExactIff(a.lexeme, b.lexeme, x, y, s);
      CanonicalFinite(x + y, s);
    }
  }

  lemma KeptNotNegative(c: Count, x: int, s: nat)
    requires IsKept(c) && StandsFor(c, x, s)
    ensures x >= 0 && (!c.coercedZero ==> ClassOf(c.lexeme) == Finite && !IsNegative(c.lexeme))
  {
    hide PartsOf, Denotes, IsNegative, ClassOf;
    if !c.coercedZero {
      NumberOf(c.lexeme);
      NumberIsFinite(c.lexeme);
      NotNegativeMeans(c.lexeme, x, s);
    }
  }

  /** No number is spelled like a NaN or an infinity. */
  lemma NumberIsFinite(text: string)
    requires IsNumber(text)
    ensures ClassOf(text) == Finite
  {
    var rest, lower := Unsigned(text), Lower(text);
    FirstOfNumber(text);
    if lower != [] {
      assert lower[0] == LowerChar(text[0]);
      assert |lower| > 1 ==> lower[1] == LowerChar(text[1]);
    }
    assert "nan"[0] == 'n' && "inf"[0] == 'i' && "infinity"[0] == 'i';
    assert "+inf"[1] == 'i' && "+infinity"[1] == 'i' && "-inf"[1] == 'i' && "-infinity"[1] == 'i';
    assert "+inf"[0] == '+' && "+infinity"[0] == '+' && "-inf"[0] == '-' && "-infinity"[0] == '-';
  }

  lemma FirstOfNumber(text: string)
    requires IsNumber(text)
    ensures var rest := Unsigned(text); rest != [] && (IsDigit(rest[0]) || rest[0] == '.' || IsE(rest[0]))
  {
    var rest := Unsigned(text);
    var m := rest[..FirstE(rest)];
    if m != [] {
      assert m[0] == rest[0];
    }
  }

  /** A count is excessive exactly when it is above the threshold, except that no fraction below one
      is above zero, and that zero is above every threshold between zero and one. */
  lemma ExcessiveIff(c: Count, threshold: string, x: int, y: int, s: nat)
    requires IsKept(c) && !c.coercedZero && StandsFor(c, x, s)
    requires PartsOf(threshold).Some? && Denotes(PartsOf(threshold).value, y, s)
    ensures Validate(c, Some(threshold)) == Excessive <==>
              (x > y && !(y == 0 && x < Pow10(s))) || (x == 0 && 0 < y < Pow10(s))
  {
    hide PartsOf, Denotes, CompareLexemes, Pow10, IsNegative, ClassOf;
    KeptNotNegative(c, x, s);
    CompareLexemesIff(c.lexeme, threshold, x, y, s);
  }

  // ----- Bracketing -----

  /** `(a + b) + c`. */
  function LeftSum(a: Count, b: Count, c: Count): Option<Count> {
    match Plus(a, b) case None => None case Some(ab) => Plus(ab, c)
  }

  /** `a + (b + c)`. */
  function RightSum(a: Count, b: Count, c: Count): Option<Count> {
    match Plus(b, c) case None => None case Some(bc) => Plus(a, bc)
  }

  /** Two coerced zeros next to each other meet nothing but a canonical counter. */
  ghost predicate ZerosApart(a: Count, b: Count, c: Count) {
    && (a.coercedZero && b.coercedZero && !c.coercedZero ==> Canonical(c))
    && (b.coercedZero && c.coercedZero && !a.coercedZero ==> Canonical(a))
  }

  /** For counters as the parser keeps them, bracketing does not matter, failures included, exactly
      unless two coerced zeros turn into a plain zero that rewrites the third counter. */
  lemma PlusAssociatesIff(a: Count, b: Count, c: Count)
    requires IsKept(a) && IsKept(b) && IsKept(c)
    ensures LeftSum(a, b, c) == RightSum(a, b, c) <==> ZerosApart(a, b, c)
  {
    hide Canonical, ClassOf, SumText, IsNegative;
    if !a.coercedZero { ZeroPlusIff(a); }
    if !c.coercedZero { ZeroPlusIff(c); }
    PlusCommutes(a, ZERO);
    if !a.coercedZero && !b.coercedZero && !c.coercedZero {
      PlainSumsAssociate(a, b, c);
    }
  }

  /** Two coerced zeros before `1.0`: one bracketing gives `1`, the other `1.0`. */
  lemma CoercedZerosRewrite(zero: Count)
    requires zero.coercedZero
    ensures LeftSum(zero, zero, Count("1.0", false)) == Some(Count("1", false))
    ensures RightSum(zero, zero, Count("1.0", false)) == Some(Count("1.0", false))
  {
    hide PartsOf, SumText, TextOf, ClassOf;
    PlainParts("1", "0");
    assert "1" + ("." + "0") == "1.0";
    NumberOf("1.0");
    NumberIsFinite("1.0");
    ZeroClass();
    TenTenths();
    ZeroPlus("1.0", 10, 1);
  }

  /** Two coerced zeros before an infinity: one bracketing adds up, the other does not. */
  lemma CoercedZerosRefuse(zero: Count)
    requires zero.coercedZero
    ensures LeftSum(zero, zero, Count("inf", false)).None?
    ensures RightSum(zero, zero, Count("inf", false)) == Some(Count("inf", false))
  {
    hide SumText;
    assert Lower("inf") == "inf";
    assert "inf"[0] == 'i' && "nan"[0] == 'n';
  }

  lemma TenTenths()
    ensures TextOf(10, 1) == "1" && Denotes(Parts(false, "1", "0", 0), 10, 1)
  {
    assert Shortest(10, 1) == Shortest(1, 0) == Print(1) == "1";
    assert "" + "1" == "1" && "1" + "0" == "10";
    assert Print(10) == Print(1) + "0" == "10";
    ValueOfPrint(10);
    assert Pow10(0) == 1;
  }

  lemma ZeroPlusIff(c: Count)
    requires IsKept(c) && !c.coercedZero
    ensures Plus(ZERO, c) == Some(c) <==> Canonical(c)
  {
    hide TextOf, PartsOf, Denotes, SumText, ClassOf, IsNegative, Pow10;
    if Canonical(c) {
      var n: nat, s: nat :| c.lexeme == TextOf(n, s);
      ZeroClass();
      CanonicalFinite(n, s);
      ZeroPlus(c.lexeme, n, s);
    }
    if Plus(ZERO, c) == Some(c) {
      ZeroCanonical();
      PlusCanonical(ZERO, c.lexeme);
    }
  }

  /** Counters none of which is a coerced zero. */
  lemma PlainSumsAssociate(a: Count, b: Count, c: Count)
    requires IsKept(a) && IsKept(b) && IsKept(c) && !a.coercedZero && !b.coercedZero && !c.coercedZero
    ensures LeftSum(a, b, c) == RightSum(a, b, c)
  {
    hide PartsOf, ClassOf, SumText, IsNegative;
    if ClassOf(a.lexeme) == Finite && ClassOf(b.lexeme) == Finite && ClassOf(c.lexeme) == Finite {
      if PartsOf(a.lexeme).Some? && PartsOf(b.lexeme).Some? && PartsOf(c.lexeme).Some? {
        AddAssociates(a.lexeme, b.lexeme, c.lexeme);
        SumIsFinite(a.lexeme, b.lexeme);
        SumIsFinite(b.lexeme, c.lexeme);
      } else {
        NoParts(a, b, c);
      }
    }
  }

  lemma SumIsFinite(left: string, right: string)
    requires PartsOf(left).Some? && PartsOf(right).Some? && !IsNegative(left) && !IsNegative(right)
    ensures SumText(left, right).Some? && ClassOf(SumText(left, right).value) == Finite
  {
    hide PartsOf, Denotes, SumText, TextOf, Pow10, IsNegative, ClassOf;
    var x, y, z, s := CommonDenotation(left, right, right);
    SumExactIff(left, right, x, y, s);
    CanonicalFinite(x + y, s);
  }

  /** With a lexeme whose exponent does not fit, neither bracketing adds up. */
  lemma NoParts(a: Count, b: Count, c: Count)
    requires !a.coercedZero && !b.coercedZero && !c.coercedZero
    requires PartsOf(a.lexeme).None? || PartsOf(b.lexeme).None? || PartsOf(c.lexeme).None?
    ensures LeftSum(a, b, c).None? && RightSum(a, b, c).None?
  {
    hide PartsOf, ClassOf, NormalForm, Total, TextOf;
  }
}
