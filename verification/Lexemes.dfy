/**
 Numeric lexemes of arbitrary precision that are added and compared as decimal text, never as
 binary numbers. The text arithmetic is related to the numbers the lexemes denote.
 */
module Lexemes {
  import opened Wrappers
  import opened Ordering
  import opened Decimal
  import opened DigitStrings

  // ----- Numeric lexemes -----

  predicate IsSign(c: char) { c == '+' || c == '-' }

  predicate IsE(c: char) { c == 'e' || c == 'E' }

  predicate HasSign(text: string) {
    text != [] && IsSign(text[0])
  }

  predicate HasMinus(text: string) {
    text != [] && text[0] == '-'
  }

  function Unsigned(text: string): string {
    if HasSign(text) then text[1..] else text
  }

  /** Position of the first exponent letter, or the length. */
  function FirstE(s: string): (k: nat)
    ensures k <= |s| && (k < |s| ==> IsE(s[k])) && forall i :: 0 <= i < k ==> !IsE(s[i])
  {
    if s == [] || IsE(s[0]) then 0 else 1 + FirstE(s[1..])
  }

  function FirstDot(s: string): (k: nat)
    ensures k <= |s| && (k < |s| ==> s[k] == '.') && forall i :: 0 <= i < k ==> s[i] != '.'
  {
    if s == [] || s[0] == '.' then 0 else 1 + FirstDot(s[1..])
  }

  predicate OneDot(m: string) {
    forall i, j :: 0 <= i < j < |m| ==> m[i] != '.' || m[j] != '.'
  }

  /** Digits around at most one dot, and at least one digit. */
  predicate IsMantissa(m: string) {
    && (forall i :: 0 <= i < |m| ==> IsDigit(m[i]) || m[i] == '.')
    && OneDot(m)
    && exists i :: 0 <= i < |m| && IsDigit(m[i])
  }

  predicate IsExponent(x: string) {
    Unsigned(x) != [] && AllDigits(Unsigned(x))
  }

  predicate IsNumber(text: string) {
    var rest := Unsigned(text);
    var k := FirstE(rest);
    IsMantissa(rest[..k]) && (k == |rest| || IsExponent(rest[k + 1..]))
  }

  /** `looks_like_number_ascii`: one pass with an index and two flags. */
  method LooksLikeNumber(text: string) returns (ok: bool)
    ensures ok <==> IsNumber(text)
  {
    hide IsExponent;
    var rest := Unsigned(text);
    var i, sawDigit, sawDot := 0, false, false;
    var k := FirstE(rest);
    while i < |rest| && !IsE(rest[i])
      invariant 0 <= i <= k
      invariant sawDigit <==> exists j :: 0 <= j < i && IsDigit(rest[j])
      invariant sawDot <==> exists j :: 0 <= j < i && rest[j] == '.'
      invariant forall j :: 0 <= j < i ==> IsDigit(rest[j]) || rest[j] == '.'
      invariant OneDot(rest[..i])
    {
      if IsDigit(rest[i]) {
        sawDigit := true;
      } else if rest[i] == '.' && !sawDot {
        sawDot := true;
      } else {
        BadMantissa(rest, i, k);
        return false;
      }
      i := i + 1;
    }
    assert i == k;
    if !sawDigit { return false; }
    assert IsMantissa(rest[..k]);
    if i == |rest| { return true; }
    ok := LooksLikeExponent(rest[i + 1..]);
  }

  /** The part after the exponent letter. */
  method LooksLikeExponent(exponent: string) returns (ok: bool)
    ensures ok <==> IsExponent(exponent)
  {
    var i := if HasSign(exponent) then 1 else 0;
    var digits := Unsigned(exponent);
    assert digits == exponent[i..];
    if i == |exponent| { return false; }
    var start := i;
    while i < |exponent| && IsDigit(exponent[i])
      invariant start <= i <= |exponent|
      invariant forall j :: start <= j < i ==> IsDigit(exponent[j])
    {
      i := i + 1;
    }
    if i < |exponent| {
      assert !IsDigit(digits[i - start]);
    }
    return i == |exponent|;
  }

  lemma BadMantissa(rest: string, i: nat, k: nat)
    requires i < k <= |rest| && !IsDigit(rest[i])
    requires rest[i] != '.' || exists j :: 0 <= j < i && rest[j] == '.'
    ensures !IsMantissa(rest[..k])
  {
    var m := rest[..k];
    assert m[i] == rest[i];
    if rest[i] == '.' {
      var j :| 0 <= j < i && rest[j] == '.';
      assert m[j] == '.' && m[i] == '.';
    }
  }

  // ----- What a lexeme denotes -----

  function Signed(negative: bool, v: int): int {
    if negative then -v else v
  }

  datatype Parts = Parts(negative: bool, whole: string, fraction: string, exponent: int)

  /** Rust's `i32` parser on an exponent. */
  function ExponentOf(x: string): Option<int>
    requires IsExponent(x)
  {
    var e := Signed(HasMinus(x), Value(Unsigned(x)));
    if -0x8000_0000 <= e < 0x8000_0000 then Some(e) else None
  }

  predicate GoodParts(p: Parts) {
    AllDigits(p.whole) && AllDigits(p.fraction) && |p.whole| + |p.fraction| > 0
  }

  function PartsOf(text: string): (p: Option<Parts>)
    ensures p.Some? ==> GoodParts(p.value)
  {
    if !IsNumber(text) then None
    else
      var rest := Unsigned(text);
      var k := FirstE(rest);
      var mantissa := rest[..k];
      var exponent := if k == |rest| then Some(0) else ExponentOf(rest[k + 1..]);
      var d := FirstDot(mantissa);
      SplitMantissa(mantissa);
      if exponent.None? then None
      else Some(Parts(HasMinus(text), mantissa[..d], if d == |mantissa| then [] else mantissa[d + 1..], exponent.value))
  }

  lemma SplitMantissa(m: string)
    requires IsMantissa(m)
    ensures var d := FirstDot(m);
            var fraction := if d == |m| then [] else m[d + 1..];
            AllDigits(m[..d]) && AllDigits(fraction) && d + |fraction| > 0
  {
    var d := FirstDot(m);
    forall i | 0 <= i < d ensures IsDigit(m[..d][i]) {
      assert m[..d][i] == m[i];
    }
    if d < |m| {
      var fraction := m[d + 1..];
      forall i | 0 <= i < |fraction| ensures IsDigit(fraction[i]) {
        assert fraction[i] == m[d + 1 + i] && m[d] == '.';
      }
      var i :| 0 <= i < |m| && IsDigit(m[i]);
    }
  }

  /** The lexeme denotes `n / 10^s`. */
  ghost predicate Denotes(p: Parts, n: int, s: nat)
    requires GoodParts(p)
  {
    var mantissa := Signed(p.negative, Value(p.whole + p.fraction));
    var shift := p.exponent - |p.fraction| + s;
    if shift >= 0 then mantissa * Pow10(shift) == n else mantissa == n * Pow10(-shift)
  }

  // ----- Normal form -----

  /** `NormalizedDecimal`: digits without leading zeros, `scale` of them after the point. */
  datatype Norm = Norm(negative: bool, digits: string, scale: nat)

  predicate IsNorm(n: Norm) {
    && n.digits != [] && AllDigits(n.digits)
    && (n.digits == "0" ==> !n.negative && n.scale == 0)
    && (n.digits != "0" ==> n.digits[0] != '0')
  }

  predicate IsZero(n: Norm) {
    n.digits == "0"
  }

  /** `trim_start_matches('0')`. */
  function TrimLeading(s: string): string {
    if s != [] && s[0] == '0' then TrimLeading(s[1..]) else s
  }

  function Digits(s: string): string {
    if TrimLeading(s) == [] then "0" else TrimLeading(s)
  }

  lemma {:induction false} TrimKeepsValue(s: string)
    requires AllDigits(s)
    ensures var t := TrimLeading(s);
            AllDigits(t) && Value(t) == Value(s) && |t| <= |s| && (t != [] ==> t[0] != '0')
  {
    if s != [] && s[0] == '0' {
      TrimKeepsValue(s[1..]);
      ValueCons('0', s[1..]);
      assert s == ['0'] + s[1..];
    }
  }

  lemma DigitsFacts(s: string)
    requires AllDigits(s)
    ensures var d := Digits(s);
            && AllDigits(d) && d != [] && Value(d) == Value(s)
            && (d == "0" <==> Value(s) == 0) && (d != "0" ==> d[0] != '0')
  {
    TrimKeepsValue(s);
    ValueOfPrint(0);
    var t := TrimLeading(s);
    if t != [] {
      ValueFloor(t);
    }
  }

  function NormalForm(p: Parts): Norm
    requires GoodParts(p)
  {
    var all := (if p.whole == [] then "0" else p.whole) + p.fraction;
    var scale := |p.fraction| - p.exponent;
    var digits := Digits(if scale < 0 then all + Zeros(-scale) else all);
    if digits == "0" then Norm(false, "0", 0)
    else Norm(p.negative, digits, if scale < 0 then 0 else scale)
  }

  /** `normalize_decimal` keeps the number. */
  lemma NormalFormMeans(p: Parts)
    requires GoodParts(p)
    ensures var n := NormalForm(p); IsNorm(n) && Denotes(p, Signed(n.negative, Value(n.digits)), n.scale)
  {
    hide Value, Pow10, Digits;
    var all := (if p.whole == [] then "0" else p.whole) + p.fraction;
    var scale := |p.fraction| - p.exponent;
    WholeValue(p);
    var v := Value(p.whole + p.fraction);
    PowNext(0);
    if scale < 0 {
      ValueScaled(all, -scale);
      DigitsFacts(all + Zeros(-scale));
      SignedTimes(p.negative, v, Pow10(-scale));
    } else {
      DigitsFacts(all);
      assert v * 1 == v;
      SignedTimes(p.negative, v, 1);
    }
    var n := NormalForm(p);
    if n.digits == "0" {
      ZeroProduct(v, if scale < 0 then Pow10(-scale) else 1);
      ZeroDenotes(p);
    }
  }

  lemma SignedTimes(negative: bool, v: nat, p: nat)
    ensures Signed(negative, v) * p == Signed(negative, v * p)
  {}

  lemma ZeroProduct(v: nat, p: nat)
    requires p > 0 && v * p == 0
    ensures v == 0
  {}

  lemma ZeroDenotes(p: Parts)
    requires GoodParts(p) && Value(p.whole + p.fraction) == 0
    ensures Denotes(p, 0, 0) && Value("0") == 0
  {
    hide Value, Pow10;
    ValueOfPrint(0);
    assert Print(0) == "0";
  }

  lemma WholeValue(p: Parts)
    requires GoodParts(p)
    ensures var all := (if p.whole == [] then "0" else p.whole) + p.fraction;
            AllDigits(all) && AllDigits(p.whole + p.fraction) && Value(all) == Value(p.whole + p.fraction)
  {
    ValueAppend("0", p.fraction);
    assert [] + p.fraction == p.fraction;
    ValueOfPrint(0);
  }

  // ----- Canonical text -----

  function Magnitude(n: int): nat {
    if n < 0 then -n else n
  }

  /** The digits of `v` with a point before the last `s` of them. */
  function Pointed(v: nat, s: nat): string {
    var d := Print(v);
    if s == 0 then d
    else if |d| <= s then "0." + (Zeros(s - |d|) + d)
    else d[..|d| - s] + ("." + d[|d| - s..])
  }

  /** The shortest text for `v / 10^s`: no zeros at its end. */
  function Shortest(v: nat, s: nat): string
    decreases s
  {
    if s > 0 && v % 10 == 0 then Shortest(v / 10, s - 1) else Pointed(v, s)
  }

  /** The text a sum of `n / 10^s` is written as. */
  function TextOf(n: int, s: nat): string {
    if n == 0 then "0" else (if n < 0 then "-" else "") + Shortest(Magnitude(n), s)
  }

  /** `ends_with('0')` and `pop`, repeated. */
  function TrimZeros(s: string): string {
    if s != [] && s[|s| - 1] == '0' then TrimZeros(s[..|s| - 1]) else s
  }

  function TrimPoint(s: string): string {
    if s != [] && s[|s| - 1] == '.' then s[..|s| - 1] else s
  }

  lemma TrimZerosPop(s: string)
    ensures TrimZeros(s + "0") == TrimZeros(s)
  {
    assert (s + "0")[..|s|] == s;
  }

  lemma TrimZerosKeeps(s: string, c: char)
    requires c != '0'
    ensures TrimZeros(s + [c]) == s + [c]
  {}

  lemma PrintTens(v: nat)
    requires v > 0 && v % 10 == 0
    ensures Print(v) == Print(v / 10) + ['0']
  {}

  /** A multiple of ten, pointed, is the tenth of it pointed one place earlier, and a zero. */
  lemma PointedTens(v: nat, s: nat)
    requires v > 0 && v % 10 == 0 && s > 0
    ensures Pointed(v, s) == if s == 1 then Pointed(v / 10, 0) + ".0" else Pointed(v / 10, s - 1) + "0"
  {
    hide Print;
    var d, e := Print(v), Print(v / 10);
    PrintTens(v);
    if s == 1 {
      assert d[..|d| - 1] == e && d[|d| - 1..] == "0";
      assert "." + "0" == ".0";
    } else if |d| <= s {
      assert s - |d| == s - 1 - |e|;
      assert "0." + (Zeros(s - |d|) + (e + ['0'])) == "0." + (Zeros(s - 1 - |e|) + e) + "0";
    } else {
      var k := |d| - s;
      assert |e| - (s - 1) == k && d[..k] == e[..k] && d[k..] == e[k..] + "0";
      assert e[..k] + ("." + (e[k..] + "0")) == e[..k] + ("." + e[k..]) + "0";
    }
  }

  /** Any text of a positive number that does not end in zero ends in its last digit. */
  lemma PointedLast(v: nat, s: nat)
    requires v % 10 != 0 && s > 0
    ensures var t := Pointed(v, s); t != [] && t[|t| - 1] == Digit(v % 10) != '0'
  {
    var d := Print(v);
    assert d[|d| - 1] == Digit(v % 10);
  }

  /** Trimming the zeros and then the point of a pointed text gives the shortest one. */
  lemma {:induction false} TrimIsShortest(v: nat, s: nat)
    requires v > 0 && s > 0
    ensures TrimPoint(TrimZeros(Pointed(v, s))) == Shortest(v, s)
    decreases s
  {
    hide Pointed, Print;
    if v % 10 == 0 {
      PointedTens(v, s);
      if s == 1 {
        var t := Pointed(v / 10, 0);
        assert t + ".0" == (t + ".") + "0";
        TrimZerosPop(t + ".");
        TrimZerosKeeps(t, '.');
        assert (t + ".")[..|t|] == t;
      } else {
        TrimZerosPop(Pointed(v / 10, s - 1));
        TrimIsShortest(v / 10, s - 1);
      }
    } else {
      PointedLast(v, s);
      var t := Pointed(v, s);
      assert t == t[..|t| - 1] + [t[|t| - 1]];
      TrimZerosKeeps(t[..|t| - 1], t[|t| - 1]);
    }
  }

  /** Without leading zeros, digits are what printing their value gives. */
  lemma {:induction false} DigitsArePrinted(d: string)
    requires AllDigits(d) && d != [] && (|d| == 1 || d[0] != '0')
    ensures d == Print(Value(d))
  {
    var init, last := d[..|d| - 1], d[|d| - 1];
    assert d == init + [last];
    ValueSnoc(init, last);
    assert Digit(DigitOf(last)) == last;
    if init == [] {
      ValueOfNothing();
    } else {
      ValueFloor(init);
      DigitsArePrinted(init);
      assert Value(d) / 10 == Value(init) && Value(d) % 10 == DigitOf(last);
    }
  }

  /** Pops zeros and then a final point. */
  method TrimEnd(text: string) returns (trimmed: string)
    ensures trimmed == TrimPoint(TrimZeros(text))
  {
    hide TrimZeros;
    trimmed := text;
    while trimmed != [] && trimmed[|trimmed| - 1] == '0'
      invariant TrimZeros(trimmed) == TrimZeros(text)
    {
      TrimZerosPop(trimmed[..|trimmed| - 1]);
      assert trimmed == trimmed[..|trimmed| - 1] + "0";
      trimmed := trimmed[..|trimmed| - 1];
    }
    TrimZerosDone(trimmed);
    if trimmed != [] && trimmed[|trimmed| - 1] == '.' {
      trimmed := trimmed[..|trimmed| - 1];
    }
  }

  /** `format_normalized`: puts the point in place, then pops zeros and a final point. */
  method FormatNormalized(negative: bool, raw: string, scale: nat) returns (text: string)
    requires AllDigits(raw)
    ensures text == TextOf(Signed(negative, Value(raw)), scale)
  {
    hide *;
    var digits := Digits(raw);
    DigitsFacts(raw);
    if digits == "0" {
      ZeroIsText(negative, raw, scale);
      return "0";
    }
    NonzeroDigits(raw);
    var v := Value(raw);
    if scale == 0 {
      text := digits;
      ShortestWhole(v);
    } else {
      if |digits| <= scale {
        text := "0." + (Zeros(scale - |digits|) + digits);
      } else {
        var split := |digits| - scale;
        text := digits[..split] + ("." + digits[split..]);
      }
      PointedIs(v, scale);
      text := TrimEnd(text);
      TrimIsShortest(v, scale);
    }
    SignedText(negative, v, scale);
    if negative {
      text := "-" + text;
    }
  }

  lemma ZeroIsText(negative: bool, raw: string, scale: nat)
    requires AllDigits(raw) && Digits(raw) == "0"
    ensures TextOf(Signed(negative, Value(raw)), scale) == "0"
  {
    DigitsFacts(raw);
  }

  lemma NonzeroDigits(raw: string)
    requires AllDigits(raw) && Digits(raw) != "0"
    ensures Value(raw) > 0 && Digits(raw) == Print(Value(raw))
  {
    DigitsFacts(raw);
    DigitsArePrinted(Digits(raw));
  }

  lemma PointedIs(v: nat, s: nat)
    requires s > 0
    ensures var d := Print(v);
            Pointed(v, s) == if |d| <= s then "0." + (Zeros(s - |d|) + d) else d[..|d| - s] + ("." + d[|d| - s..])
  {}

  lemma SignedText(negative: bool, v: nat, s: nat)
    requires v > 0
    ensures TextOf(Signed(negative, v), s) == if negative then "-" + Shortest(v, s) else Shortest(v, s)
  {
    assert "" + Shortest(v, s) == Shortest(v, s);
  }

  lemma ShortestWhole(v: nat)
    ensures Shortest(v, 0) == Print(v)
  {}

  lemma TrimZerosDone(s: string)
    requires s == [] || s[|s| - 1] != '0'
    ensures TrimZeros(s) == s
  {}

  // ----- The text reads back as the number -----

  lemma PointedParts(v: nat, s: nat)
    ensures PartsOf(Pointed(v, s)).Some?
    ensures var p := PartsOf(Pointed(v, s)).value;
            !p.negative && |p.fraction| == s && p.exponent == 0 && Value(p.whole + p.fraction) == v
  {
    hide Print, Value, PartsOf;
    var d, t := Print(v), Pointed(v, s);
    ValueOfPrint(v);
    if s == 0 {
      PlainParts(d, []);
      assert d + [] == d;
    } else if |d| <= s {
      var fraction := Zeros(s - |d|) + d;
      PlainParts("0", fraction);
      assert t == "0" + ("." + fraction);
      assert "0" + fraction == Zeros(s - |d| + 1) + d;
      ValueOfPadding(s - |d| + 1, d);
    } else {
      PlainParts(d[..|d| - s], d[|d| - s..]);
      assert d[..|d| - s] + d[|d| - s..] == d;
    }
  }

  /** Digits, or digits with a point between them, are read as what they show. */
  lemma PlainParts(whole: string, fraction: string)
    requires AllDigits(whole) && AllDigits(fraction) && whole != []
    ensures PartsOf(if fraction == [] then whole else whole + ("." + fraction)) ==
            Some(Parts(false, whole, fraction, 0))
  {
    var text := if fraction == [] then whole else whole + ("." + fraction);
    assert forall i :: 0 <= i < |text| ==> IsDigit(text[i]) || text[i] == '.';
    assert text[0] == whole[0] && IsDigit(text[0]);
    assert Unsigned(text) == text && !HasMinus(text);
    NoLetters(text);
    assert text[..|text|] == text;
    PlainMantissa(whole, fraction);
  }

  lemma NoLetters(text: string)
    requires forall i :: 0 <= i < |text| ==> IsDigit(text[i]) || text[i] == '.'
    ensures FirstE(text) == |text|
  {}

  lemma PlainMantissa(whole: string, fraction: string)
    requires AllDigits(whole) && AllDigits(fraction) && whole != []
    ensures var m := if fraction == [] then whole else whole + ("." + fraction);
            && IsMantissa(m)
            && FirstDot(m) == |whole| && m[..|whole|] == whole
            && (fraction != [] ==> |m| > |whole| && m[|whole| + 1..] == fraction)
            && (fraction == [] ==> |m| == |whole|)
  {
    var m := if fraction == [] then whole else whole + ("." + fraction);
    assert IsDigit(m[0]);
    forall i, j | 0 <= i < j < |m| ensures m[i] != '.' || m[j] != '.' {
      if m[i] == '.' {
        assert i >= |whole|;
        assert m[j] == fraction[j - |whole| - 1];
      }
    }
    if fraction != [] {
      assert m[|whole|] == '.';
    }
  }

  lemma Minus(text: string)
    requires text != [] && !IsSign(text[0]) && PartsOf(text).Some?
    ensures PartsOf("-" + text) == Some(PartsOf(text).value.(negative := true))
  {
    hide IsMantissa, FirstE, FirstDot, IsExponent, ExponentOf;
    var t := "-" + text;
    assert Unsigned(t) == text && Unsigned(text) == text;
    assert HasMinus(t) && !HasMinus(text);
  }

  lemma {:induction false} ShortestFacts(v: nat, s: nat)
    requires v > 0
    ensures exists w: nat, u: nat :: u <= s && w > 0 && Shortest(v, s) == Pointed(w, u) && v == w * Pow10(s - u)
    decreases s
  {
    hide Pointed;
    if s > 0 && v % 10 == 0 {
      ShortestFacts(v / 10, s - 1);
      var w: nat, u: nat :|
        u <= s - 1 && w > 0 && Shortest(v / 10, s - 1) == Pointed(w, u) && v / 10 == w * Pow10(s - 1 - u);
      Rescale(w, Pow10(s - 1 - u));
      assert v == w * Pow10(s - u);
    } else {
      assert Pow10(s - s) == 1 && v == v * 1;
      assert Shortest(v, s) == Pointed(v, s) && v == v * Pow10(s - s);
    }
  }

  lemma PointedStart(v: nat, s: nat)
    ensures Pointed(v, s) != [] && IsDigit(Pointed(v, s)[0])
  {}

  /** A sum's text is a lexeme of exactly that sum. */
  lemma TextDenotes(n: int, s: nat)
    ensures PartsOf(TextOf(n, s)).Some? && Denotes(PartsOf(TextOf(n, s)).value, n, s)
  {
    hide Pointed, Shortest, PartsOf, Value, Pow10;
    if n == 0 {
      PointedParts(0, 0);
      PrintedZero();
      assert Pointed(0, 0) == "0";
      ZeroText(s);
    } else {
      var v := Magnitude(n);
      ShortestFacts(v, s);
      var w: nat, u: nat :| u <= s && w > 0 && Shortest(v, s) == Pointed(w, u) && v == w * Pow10(s - u);
      PointedParts(w, u);
      PointedStart(w, u);
      var t := Pointed(w, u);
      if n < 0 {
        Minus(t);
      } else {
        assert "" + t == t;
      }
      SignedTimes(n < 0, w, Pow10(s - u));
    }
  }

  lemma PrintedZero()
    ensures Pointed(0, 0) == "0" == Print(0)
  {}

  lemma ZeroText(s: nat)
    requires PartsOf("0").Some? && PartsOf("0").value.exponent == 0 && PartsOf("0").value.fraction == []
    requires Value(PartsOf("0").value.whole + PartsOf("0").value.fraction) == 0
    ensures Denotes(PartsOf("0").value, 0, s)
  {
    hide PartsOf, Value, Pow10;
  }

  // ----- Addition and comparison -----

  function CommonScale(a: Norm, b: Norm): nat {
    Max(a.scale, b.scale)
  }

  /** `pad_fraction`. */
  function Padded(n: Norm, s: nat): string
    requires n.scale <= s
  {
    n.digits + Zeros(s - n.scale)
  }

  /** The number in units of `10^-s`. */
  function Scaled(n: Norm, s: nat): int
    requires IsNorm(n) && n.scale <= s
  {
    Signed(n.negative, Value(n.digits) * Pow10(s - n.scale))
  }

  /** Nonzero, and all of its digits are behind the point. */
  predicate IsSmall(n: Norm) {
    !IsZero(n) && |n.digits| <= n.scale
  }

  /** A zero meets a number strictly between -1 and 0: the padded zero is the longer string. */
  predicate AddTrips(a: Norm, b: Norm) {
    (IsZero(a) && b.negative && IsSmall(b)) || (IsZero(b) && a.negative && IsSmall(a))
  }

  /** What the text addition computes, in units of the common scale. */
  function Total(a: Norm, b: Norm): int
    requires IsNorm(a) && IsNorm(b)
  {
    var s := CommonScale(a, b);
    if AddTrips(a, b) then Pow10(s + 1) - Value(if IsZero(a) then b.digits else a.digits)
    else Scaled(a, s) + Scaled(b, s)
  }

  lemma PaddedFacts(n: Norm, s: nat)
    requires IsNorm(n) && n.scale <= s
    ensures var t := Padded(n, s);
            && AllDigits(t) && t != [] && Value(t) == Value(n.digits) * Pow10(s - n.scale)
            && Scaled(n, s) == Signed(n.negative, Value(t))
            && (!IsZero(n) ==> t[0] != '0') && (IsZero(n) ==> Value(t) == 0 && |t| == s + 1)
  {
    hide Value, Pow10;
    ValueScaled(n.digits, s - n.scale);
    if IsZero(n) {
      PrintedZero();
      ValueOfPrint(0);
      assert 0 * Pow10(s - n.scale) == 0;
    }
  }

  /** Comparing padded digits is numeric unless a padded zero is the longer string. */
  lemma PaddedCompare(a: Norm, b: Norm)
    requires IsNorm(a) && IsNorm(b)
    ensures var s := CommonScale(a, b);
            var x, y := Padded(a, s), Padded(b, s);
            && AllDigits(x) && AllDigits(y)
            && (!(IsZero(a) && IsSmall(b)) && !(IsZero(b) && IsSmall(a)) ==>
                  CompareDigitStrings(x, y) == OrderOf(Value(x), Value(y)))
            && (IsZero(a) && IsSmall(b) ==> CompareDigitStrings(x, y) == Greater)
            && (IsZero(b) && IsSmall(a) ==> CompareDigitStrings(x, y) == Less)
  {
    hide Value, Pow10;
    var s := CommonScale(a, b);
    var x, y := Padded(a, s), Padded(b, s);
    PaddedFacts(a, s);
    PaddedFacts(b, s);
    if !(IsZero(a) && IsSmall(b)) && !(IsZero(b) && IsSmall(a)) {
      if IsZero(a) && IsZero(b) {
        assert |x| == |y|;
      }
      CompareMeans(x, y);
    }
  }

  /** `add_decimal_lexemes` on normal forms: sign and digits of the sum. */
  method AddNormalized(a: Norm, b: Norm) returns (negative: bool, digits: string)
    requires IsNorm(a) && IsNorm(b)
    ensures AllDigits(digits) && Signed(negative, Value(digits)) == Total(a, b)
  {
    hide Value, Pow10, Padded, Scaled, CompareDigitStrings, IsZero, IsSmall;
    var s := CommonScale(a, b);
    var x, y := Padded(a, s), Padded(b, s);
    PaddedFacts(a, s);
    PaddedFacts(b, s);
    if a.negative == b.negative {
      SameSign(a, b);
      negative := a.negative;
      digits := AddDigitStrings(x, y);
    } else {
      Opposite(a, b);
      match CompareDigitStrings(x, y) {
        case Greater =>
          negative := a.negative;
          digits := SubDigitStrings(x, y);
        case Less =>
          negative := b.negative;
          digits := SubDigitStrings(y, x);
        case Equal =>
          negative, digits := false, "0";
          PrintedZero();
          ValueOfPrint(0);
      }
    }
  }

  lemma SameSign(a: Norm, b: Norm)
    requires IsNorm(a) && IsNorm(b) && a.negative == b.negative
    ensures !AddTrips(a, b)
  {}

  /** Opposite signs: subtracting the string found smaller gives the sum, or trips over the zero. */
  lemma Opposite(a: Norm, b: Norm)
    requires IsNorm(a) && IsNorm(b) && a.negative != b.negative
    ensures var s := CommonScale(a, b);
            var x, y := Padded(a, s), Padded(b, s);
            && AllDigits(x) && AllDigits(y)
            && match CompareDigitStrings(x, y)
               case Greater =>
                 if AddTrips(a, b) then !a.negative && Total(a, b) == (Value(x) - Value(y)) % Pow10(|x|)
                 else Value(x) > Value(y) && Total(a, b) == Signed(a.negative, Value(x) - Value(y))
               case Less =>
                 if AddTrips(a, b) then !b.negative && Total(a, b) == (Value(y) - Value(x)) % Pow10(|y|)
                 else Value(x) < Value(y) && Total(a, b) == Signed(b.negative, Value(y) - Value(x))
               case Equal => Total(a, b) == 0
  {
    hide Value, Pow10, Padded, CompareDigitStrings;
    var s := CommonScale(a, b);
    PaddedFacts(a, s);
    PaddedFacts(b, s);
    PaddedCompare(a, b);
    if IsZero(a) && IsSmall(b) {
      Tripped(a, b);
    } else if IsZero(b) && IsSmall(a) {
      Tripped(b, a);
    }
  }

  /** The subtraction wraps around at the length of the padded zero. */
  lemma Tripped(zero: Norm, n: Norm)
    requires IsNorm(zero) && IsNorm(n) && IsZero(zero) && IsSmall(n)
    ensures var s := CommonScale(zero, n);
            var x, y := Padded(zero, s), Padded(n, s);
            && AllDigits(x) && AllDigits(y) && CommonScale(n, zero) == s
            && 0 < Value(n.digits) < Pow10(s + 1)
            && (Value(x) - Value(y)) % Pow10(|x|) == Pow10(s + 1) - Value(n.digits)
  {
    hide Value, Pow10;
    var s := n.scale;
    PaddedFacts(zero, s);
    PaddedFacts(n, s);
    PowNext(0);
    assert Value(n.digits) * 1 == Value(n.digits);
    ValueBound(n.digits);
    PowMonotone(|n.digits|, s + 1);
    ValueFloor(n.digits);
    var v: int, p: int := Value(n.digits), Pow10(s + 1);
    assert 0 - v == -1 * p + (p - v);
    Residue(0 - v, -1, p, p - v);
  }

  /** The text addition is exact unless it trips, and never when it does. */
  lemma AddExactIff(a: Norm, b: Norm)
    requires IsNorm(a) && IsNorm(b)
    ensures var s := CommonScale(a, b); Total(a, b) == Scaled(a, s) + Scaled(b, s) <==> !AddTrips(a, b)
    ensures AddTrips(a, b) ==> Total(a, b) > 0
  {
    hide Value, Pow10;
    if AddTrips(a, b) {
      var s := CommonScale(a, b);
      PaddedFacts(a, s);
      PaddedFacts(b, s);
      if IsZero(a) { Tripped(a, b); } else { Tripped(b, a); }
    }
  }

  /** `compare_normalized`. */
  function CompareNormalized(a: Norm, b: Norm): Order {
    if a.negative != b.negative then (if a.negative then Less else Greater)
    else
      var s := CommonScale(a, b);
      var order := CompareDigitStrings(Padded(a, s), Padded(b, s));
      if !a.negative then order
      else match order case Less => Greater case Equal => Equal case Greater => Less
  }

  /** A zero meets a number strictly between 0 and 1. */
  predicate CompareTrips(a: Norm, b: Norm) {
    (IsZero(a) && !b.negative && IsSmall(b)) || (IsZero(b) && !a.negative && IsSmall(a))
  }

  /** The text comparison is the numeric one exactly when no zero meets a positive number below one. */
  lemma CompareExactIff(a: Norm, b: Norm)
    requires IsNorm(a) && IsNorm(b)
    ensures var s := CommonScale(a, b);
            CompareNormalized(a, b) == OrderOf(Scaled(a, s), Scaled(b, s)) <==> !CompareTrips(a, b)
  {
    hide Value, Pow10, Padded, CompareDigitStrings;
    var s := CommonScale(a, b);
    PaddedFacts(a, s);
    PaddedFacts(b, s);
    PaddedCompare(a, b);
    if !IsZero(a) { NonzeroPadded(a, s); }
    if !IsZero(b) { NonzeroPadded(b, s); }
  }

  lemma NonzeroPadded(n: Norm, s: nat)
    requires IsNorm(n) && n.scale <= s && !IsZero(n)
    ensures AllDigits(Padded(n, s)) && Value(Padded(n, s)) > 0
  {
    hide Value, Pow10;
    PaddedFacts(n, s);
    ValueFloor(Padded(n, s));
  }

  // ----- Lexemes -----

  function SumText(left: string, right: string): Option<string> {
    var p, q := PartsOf(left), PartsOf(right);
    if p.None? || q.None? then None
    else
      NormalFormMeans(p.value);
      NormalFormMeans(q.value);
      var a, b := NormalForm(p.value), NormalForm(q.value);
      Some(TextOf(Total(a, b), CommonScale(a, b)))
  }

  /** `add_decimal_lexemes`. */
  method AddDecimalLexemes(left: string, right: string) returns (sum: Option<string>)
    ensures sum == SumText(left, right)
  {
    hide PartsOf, NormalForm, Total, TextOf;
    var p, q := PartsOf(left), PartsOf(right);
    if p.None? || q.None? { return None; }
    NormalFormMeans(p.value);
    NormalFormMeans(q.value);
    var a, b := NormalForm(p.value), NormalForm(q.value);
    var negative, digits := AddNormalized(a, b);
    var text := FormatNormalized(negative, digits, CommonScale(a, b));
    return Some(text);
  }

  /** The order of the operands never matters, not even where the sum is wrong. */
  lemma AddCommutes(left: string, right: string)
    ensures SumText(left, right) == SumText(right, left)
  {
    hide PartsOf, NormalForm, TextOf, Value, Pow10;
  }

  // ----- Exactness in terms of the numbers denoted -----

  function MantissaOf(p: Parts): int
    requires GoodParts(p)
  {
    Signed(p.negative, Value(p.whole + p.fraction))
  }

  function Shift(p: Parts, s: nat): int {
    p.exponent - |p.fraction| + s
  }

  /** Denoting, without a case split: at a large enough common power of ten. */
  lemma DenotesAt(p: Parts, n: int, s: nat, k: nat)
    requires GoodParts(p) && Shift(p, s) + k >= 0
    ensures Denotes(p, n, s) <==> MantissaOf(p) * Pow10(Shift(p, s) + k) == n * Pow10(k)
  {
    hide Value, Pow10;
    var m, shift := MantissaOf(p), Shift(p, s);
    if shift >= 0 {
      PowSum(shift, k);
      Regroup(m, Pow10(shift), Pow10(k));
      Cancel(m * Pow10(shift), n, Pow10(k));
    } else {
      PowSum(-shift, shift + k);
      assert k == -shift + (shift + k);
      Regroup(n, Pow10(-shift), Pow10(shift + k));
      Cancel(m, n * Pow10(-shift), Pow10(shift + k));
    }
  }

  lemma Regroup(x: int, y: nat, z: nat)
    ensures x * (y * z) == (x * y) * z
  {}

  lemma Cancel(x: int, y: int, p: nat)
    requires p > 0
    ensures x * p == y * p <==> x == y
  {
    if x * p == y * p {
      assert (x - y) * p == 0;
    }
  }

  lemma Swap(x: int, y: nat, z: nat)
    ensures (x * y) * z == (x * z) * y
  {}

  /** Two fractions that one lexeme denotes are equal, and equal fractions are both denoted. */
  lemma DenotesSame(p: Parts, n: int, s: nat, m: int, t: nat)
    requires GoodParts(p) && Denotes(p, n, s)
    ensures Denotes(p, m, t) <==> n * Pow10(t) == m * Pow10(s)
  {
    hide Value, Pow10, Denotes, MantissaOf;
    var k: nat := Magnitude(Shift(p, 0));
    var x := MantissaOf(p);
    DenotesAt(p, n, s, k);
    DenotesAt(p, m, t, k);
    var base := Shift(p, 0) + k;
    assert Shift(p, s) + k == base + s && Shift(p, t) + k == base + t;
    PowSum(base, s);
    PowSum(base, t);
    var b, ps, pt, pk := Pow10(base), Pow10(s), Pow10(t), Pow10(k);
    Regroup(x, b, ps);
    Regroup(x, b, pt);
    // x b ps == n pk, and the question is whether x b pt == m pk.
    assert (x * b) * ps == n * pk;
    Cancel((x * b) * pt, m * pk, ps);
    Swap(x * b, pt, ps);
    Swap(n, pk, pt);
    Swap(m, pk, ps);
    Cancel(n * pt, m * ps, pk);
  }

  lemma {:induction false} ShortestShift(v: nat, s: nat, k: nat)
    requires v > 0
    ensures v * Pow10(k) > 0 && Shortest(v * Pow10(k), s + k) == Shortest(v, s)
  {
    hide Shortest, Pow10;
    if k == 0 {
      PowNext(0);
      assert v * 1 == v;
    } else {
      ShortestShift(v, s, k - 1);
      var w := v * Pow10(k - 1);
      PowNext(k - 1);
      Rescale(v, Pow10(k - 1));
      ShortestTens(w, s + (k - 1));
    }
  }

  lemma ShortestTens(w: nat, t: nat)
    ensures Shortest(10 * w, t + 1) == Shortest(w, t)
  {}

  /** Equal fractions have the same text. */
  lemma TextCanonical(n: int, s: nat, m: int, t: nat)
    requires n * Pow10(t) == m * Pow10(s) && s <= t
    ensures TextOf(n, s) == TextOf(m, t)
  {
    hide Pow10, Shortest;
    var k := t - s;
    PowSum(k, s);
    Regroup(n, Pow10(k), Pow10(s));
    Cancel(n * Pow10(k), m, Pow10(s));
    if n != 0 {
      ShortestShift(Magnitude(n), s, k);
      SignedTimes(n < 0, Magnitude(n), Pow10(k));
    }
  }

  /** Strictly between zero and one in size. */
  lemma SmallMeans(n: Norm)
    requires IsNorm(n)
    ensures IsZero(n) <==> Value(n.digits) == 0
    ensures IsSmall(n) <==> 0 < Value(n.digits) < Pow10(n.scale)
  {
    hide Value, Pow10;
    PrintedZero();
    ValueOfPrint(0);
    if !IsZero(n) {
      ValueFloor(n.digits);
      ValueBound(n.digits);
      if |n.digits| <= n.scale {
        PowMonotone(|n.digits|, n.scale);
      } else {
        PowMonotone(n.scale, |n.digits| - 1);
      }
    }
  }

  /** Zero and a number strictly between -1 and 0, in units of `10^-s`. */
  predicate Trips(x: int, y: int, s: nat) {
    (x == 0 && y < 0 < y + Pow10(s)) || (y == 0 && x < 0 < x + Pow10(s))
  }

  /** The normal form of a lexeme, against a fraction it denotes. */
  lemma NormAgainst(p: Parts, x: int, s: nat)
    requires GoodParts(p) && Denotes(p, x, s)
    ensures var n := NormalForm(p);
            && IsNorm(n) && Signed(n.negative, Value(n.digits)) * Pow10(s) == x * Pow10(n.scale)
            && (IsZero(n) <==> x == 0)
            && (n.negative && IsSmall(n) <==> x < 0 < x + Pow10(s))
            && (!n.negative && IsSmall(n) <==> 0 < x < Pow10(s))
            && (x >= 0 ==> !n.negative)
  {
    hide Value, Pow10, Denotes, NormalForm, IsZero, IsSmall;
    var n := NormalForm(p);
    NormalFormMeans(p);
    var v := Signed(n.negative, Value(n.digits));
    DenotesSame(p, v, n.scale, x, s);
    SmallMeans(n);
    SignsAgree(v, Pow10(s), x, Pow10(n.scale));
    if IsZero(n) { ZeroIsPositive(n); }
  }

  lemma MulLess(a: int, b: int, p: nat)
    requires p > 0
    ensures a < b <==> a * p < b * p
  {
    if a < b {
      assert (b - a) * p > 0;
    } else {
      assert (a - b) * p >= 0;
    }
  }

  lemma SignsAgree(v: int, ps: int, x: int, pn: int)
    requires ps > 0 && pn > 0 && v * ps == x * pn
    ensures (v == 0 <==> x == 0) && (v < 0 <==> x < 0) && (0 < v + pn <==> 0 < x + ps) && (v < pn <==> x < ps)
  {
    MulLess(v, 0, ps);
    MulLess(x, 0, pn);
    MulLess(0, v, ps);
    MulLess(0, x, pn);
    MulLess(-pn, v, ps);
    MulLess(-ps, x, pn);
    MulLess(v, pn, ps);
    MulLess(x, ps, pn);
    assert (-pn) * ps == (-ps) * pn && pn * ps == ps * pn;
  }

  lemma ZeroIsPositive(n: Norm)
    requires IsNorm(n) && IsZero(n)
    ensures !n.negative
  {}

  /** Both operands at a common scale `s`, against the scale the addition chooses itself. */
  lemma SumAgainst(a: Norm, b: Norm, x: int, y: int, s: nat)
    requires IsNorm(a) && Signed(a.negative, Value(a.digits)) * Pow10(s) == x * Pow10(a.scale)
    requires IsNorm(b) && Signed(b.negative, Value(b.digits)) * Pow10(s) == y * Pow10(b.scale)
    ensures var t := CommonScale(a, b); (Scaled(a, t) + Scaled(b, t)) * Pow10(s) == (x + y) * Pow10(t)
  {
    hide Value, Pow10, Scaled;
    var t := CommonScale(a, b);
    ScaledAgainst(a, x, s, t);
    ScaledAgainst(b, y, s, t);
    Spread(Scaled(a, t), Scaled(b, t), Pow10(s));
    Spread(x, y, Pow10(t));
  }

  lemma Spread(x: int, y: int, p: nat)
    ensures (x + y) * p == x * p + y * p
  {}

  lemma ScaledAgainst(a: Norm, x: int, s: nat, t: nat)
    requires IsNorm(a) && Signed(a.negative, Value(a.digits)) * Pow10(s) == x * Pow10(a.scale) && a.scale <= t
    ensures Scaled(a, t) * Pow10(s) == x * Pow10(t)
  {
    hide Value, Pow10;
    var k := t - a.scale;
    var v := Signed(a.negative, Value(a.digits));
    SignedTimes(a.negative, Value(a.digits), Pow10(k));
    assert Scaled(a, t) == v * Pow10(k);
    PowSum(a.scale, k);
    assert t == a.scale + k;
    Swap(v, Pow10(k), Pow10(s));
    Regroup(x, Pow10(a.scale), Pow10(k));
  }

  /** For lexemes that denote `x / 10^s` and `y / 10^s`, the text of the sum denotes
      `(x + y) / 10^s` exactly when no zero meets a number strictly between -1 and 0; and then
      it is the one canonical text of that number. */
  lemma SumExactIff(left: string, right: string, x: int, y: int, s: nat)
    requires PartsOf(left).Some? && Denotes(PartsOf(left).value, x, s)
    requires PartsOf(right).Some? && Denotes(PartsOf(right).value, y, s)
    ensures SumText(left, right).Some? && PartsOf(SumText(left, right).value).Some?
    ensures Denotes(PartsOf(SumText(left, right).value).value, x + y, s) <==> !Trips(x, y, s)
    ensures !Trips(x, y, s) ==> SumText(left, right) == Some(TextOf(x + y, s))
  {
    hide PartsOf, Denotes, NormalForm, TextOf, Total, Value, Pow10, Scaled, IsZero, IsSmall;
    var p, q := PartsOf(left).value, PartsOf(right).value;
    var a, b := NormalForm(p), NormalForm(q);
    NormAgainst(p, x, s);
    NormAgainst(q, y, s);
    var t := CommonScale(a, b);
    var total := Total(a, b);
    SumAgainst(a, b, x, y, s);
    AddExactIff(a, b);
    TextDenotes(total, t);
    DenotesSame(PartsOf(TextOf(total, t)).value, total, t, x + y, s);
    Cancel(total, Scaled(a, t) + Scaled(b, t), Pow10(s));
    if !Trips(x, y, s) {
      SameText(total, t, x + y, s);
    }
  }

  lemma SameText(n: int, s: nat, m: int, t: nat)
    requires n * Pow10(t) == m * Pow10(s)
    ensures TextOf(n, s) == TextOf(m, t)
  {
    hide Pow10, TextOf;
    if s <= t {
      TextCanonical(n, s, m, t);
    } else {
      TextCanonical(m, t, n, s);
    }
  }

  /** Every lexeme that is read denotes some fraction, at every scale from its own on. */
  lemma Denoted(p: Parts) returns (x: int, s: nat)
    requires GoodParts(p)
    ensures Denotes(p, x, s) && (!p.negative ==> x >= 0)
  {
    var n := NormalForm(p);
    NormalFormMeans(p);
    x, s := Signed(n.negative, Value(n.digits)), n.scale;
  }

  lemma Raise(p: Parts, x: int, s: nat, t: nat)
    requires GoodParts(p) && Denotes(p, x, s) && s <= t
    ensures Denotes(p, x * Pow10(t - s), t) && (x >= 0 ==> x * Pow10(t - s) >= 0)
  {
    hide Denotes, Pow10;
    var k := t - s;
    PowSum(k, s);
    Regroup(x, Pow10(k), Pow10(s));
    DenotesSame(p, x, s, x * Pow10(k), t);
    MulLess(-1, x, Pow10(k));
    NonNegative(x, Pow10(k));
  }

  lemma NonNegative(x: int, p: nat)
    ensures x >= 0 ==> x * p >= 0
  {}

  // ----- Lexemes that are not negative -----

  /** A minus before a mantissa that is not zero. */
  predicate IsNegative(lexeme: string)
  {
    IsNumber(lexeme) && HasMinus(lexeme) && HasNonzeroDigit(lexeme)
  }

  predicate HasNonzeroDigit(lexeme: string) {
    var rest := Unsigned(lexeme);
    exists i :: 0 <= i < FirstE(rest) && IsDigit(rest[i]) && rest[i] != '0'
  }

  /** A lexeme that is not negative denotes no negative number. */
  lemma NotNegativeMeans(lexeme: string, x: int, s: nat)
    requires PartsOf(lexeme).Some? && Denotes(PartsOf(lexeme).value, x, s) && !IsNegative(lexeme)
    ensures x >= 0
  {
    hide Value, Pow10, PartsOf, Denotes, IsNegative, NormalForm;
    var p := PartsOf(lexeme).value;
    PartsSign(lexeme);
    if p.negative {
      AllZeroDigits(lexeme);
      ZeroDenotes(p);
      DenotesSame(p, 0, 0, x, s);
      MulLess(x, 0, Pow10(0));
    } else {
      NotBelowZero(p, x, s);
    }
  }

  lemma PartsSign(lexeme: string)
    requires PartsOf(lexeme).Some?
    ensures PartsOf(lexeme).value.negative == HasMinus(lexeme)
  {}

  lemma NotBelowZero(p: Parts, x: int, s: nat)
    requires GoodParts(p) && Denotes(p, x, s) && !p.negative
    ensures x >= 0
  {
    hide Value, Pow10;
    var v: int := Value(p.whole + p.fraction);
    if Shift(p, s) >= 0 {
      NonNegative(v, Pow10(Shift(p, s)));
    } else {
      MulLess(x, 0, Pow10(-Shift(p, s)));
    }
  }

  lemma AllZeroDigits(lexeme: string)
    requires PartsOf(lexeme).Some? && HasMinus(lexeme) && !IsNegative(lexeme)
    ensures var p := PartsOf(lexeme).value; Value(p.whole + p.fraction) == 0
  {
    hide Value;
    var p := PartsOf(lexeme).value;
    var rest := Unsigned(lexeme);
    var m := rest[..FirstE(rest)];
    var all := p.whole + p.fraction;
    forall i | 0 <= i < |all| ensures all[i] == '0' {
      var d := FirstDot(m);
      var j := if i < d then i else i + 1;
      assert all[i] == m[j] && m[j] == rest[j];
      assert IsDigit(rest[j]);
    }
    assert all == Zeros(|all|);
    ValueOfZeros(|all|);
  }

  /** Sums of lexemes that are not negative do not depend on how they are bracketed, as text. */
  lemma AddAssociates(a: string, b: string, c: string)
    requires PartsOf(a).Some? && PartsOf(b).Some? && PartsOf(c).Some?
    requires !IsNegative(a) && !IsNegative(b) && !IsNegative(c)
    ensures SumText(a, b).Some? && SumText(b, c).Some?
    ensures SumText(SumText(a, b).value, c) == SumText(a, SumText(b, c).value)
    ensures SumText(SumText(a, b).value, c).Some?
  {
    hide PartsOf, Denotes, SumText, TextOf, Pow10, IsNegative;
    var x, y, z, s := CommonDenotation(a, b, c);
    SumExactIff(a, b, x, y, s);
    SumExactIff(b, c, y, z, s);
    SumExactIff(SumText(a, b).value, c, x + y, z, s);
    SumExactIff(a, SumText(b, c).value, x, y + z, s);
  }

  /** Numbers that are not negative, at one scale. */
  lemma CommonDenotation(a: string, b: string, c: string) returns (x: nat, y: nat, z: nat, s: nat)
    requires PartsOf(a).Some? && PartsOf(b).Some? && PartsOf(c).Some?
    requires !IsNegative(a) && !IsNegative(b) && !IsNegative(c)
    ensures Denotes(PartsOf(a).value, x, s) && Denotes(PartsOf(b).value, y, s) && Denotes(PartsOf(c).value, z, s)
  {
    hide PartsOf, Denotes, Pow10, IsNegative;
    var p, q, r := PartsOf(a).value, PartsOf(b).value, PartsOf(c).value;
    var u, i := Denoted(p);
    var v, j := Denoted(q);
    var w, k := Denoted(r);
    NotNegativeMeans(a, u, i);
    NotNegativeMeans(b, v, j);
    NotNegativeMeans(c, w, k);
    s := i + j + k;
    Raise(p, u, i, s);
    Raise(q, v, j, s);
    Raise(r, w, k, s);
    x, y, z := u * Pow10(s - i), v * Pow10(s - j), w * Pow10(s - k);
  }

  /** Adding zero to minus a half gives nine and a half. */
  lemma ZeroPlusMinusHalf()
    ensures SumText("0", "-0.5") == Some("9.5")
  {
    hide PartsOf, NormalForm, Total, TextOf;
    PlainParts("0", []);
    PlainParts("0", "5");
    assert "0" + ("." + "5") == "0.5";
    Minus("0.5");
    assert "-" + "0.5" == "-0.5";
    ZeroAndHalf();
    NineAndHalf();
  }

  const ZERO_FORM := Norm(false, "0", 0)
  const MINUS_HALF := Norm(true, "5", 1)

  lemma ZeroAndHalf()
    ensures NormalForm(Parts(false, "0", "", 0)) == ZERO_FORM && NormalForm(Parts(true, "0", "5", 0)) == MINUS_HALF
    ensures IsNorm(ZERO_FORM) && IsNorm(MINUS_HALF) && Total(ZERO_FORM, MINUS_HALF) == 95
  {
    assert "0" + "" == "0" && "0" + "5" == "05";
    assert "0"[1..] == "" && TrimLeading("") == "" && TrimLeading("0") == "" && Digits("0") == "0";
    assert "05"[1..] == "5" && TrimLeading("5") == "5" && TrimLeading("05") == "5" && Digits("05") == "5";
    assert "5"[..0] == "";
    assert Value("5") == 5;
    assert Pow10(1) == 10 && Pow10(2) == 100;
  }

  lemma NineAndHalf()
    ensures TextOf(95, 1) == "9.5"
  {
    assert Print(9) == "9" && Print(95) == Print(9) + "5";
    assert "95"[..1] == "9" && "95"[1..] == "5";
    assert "9" + ("." + "5") == "9.5";
    assert "" + "9.5" == "9.5";
  }

  // ----- Comparing lexemes -----

  /** `compare_decimal_lexemes`. */
  function CompareLexemes(left: string, right: string): Option<Order> {
    var p, q := PartsOf(left), PartsOf(right);
    if p.None? || q.None? then None else Some(CompareNormalized(NormalForm(p.value), NormalForm(q.value)))
  }

  /** Zero and a number strictly between 0 and 1, in units of `10^-s`. */
  predicate ComparisonTrips(x: int, y: int, s: nat) {
    (x == 0 && 0 < y < Pow10(s)) || (y == 0 && 0 < x < Pow10(s))
  }

  /** For lexemes that denote `x / 10^s` and `y / 10^s`, the comparison orders x and y exactly when
      no zero meets a number strictly between 0 and 1; where it does not, zero counts as greater. */
  lemma CompareLexemesIff(left: string, right: string, x: int, y: int, s: nat)
    requires PartsOf(left).Some? && Denotes(PartsOf(left).value, x, s)
    requires PartsOf(right).Some? && Denotes(PartsOf(right).value, y, s)
    ensures CompareLexemes(left, right).Some?
    ensures CompareLexemes(left, right) == Some(OrderOf(x, y)) <==> !ComparisonTrips(x, y, s)
    ensures ComparisonTrips(x, y, s) ==> CompareLexemes(left, right) == Some(if x == 0 then Greater else Less)
  {
    hide PartsOf, Denotes, NormalForm, Value, Pow10, Scaled, IsZero, IsSmall, CompareNormalized;
    var p, q := PartsOf(left).value, PartsOf(right).value;
    var a, b := NormalForm(p), NormalForm(q);
    NormAgainst(p, x, s);
    NormAgainst(q, y, s);
    CompareExactIff(a, b);
    OrderAgainst(a, b, x, y, s);
    if CompareTrips(a, b) { TrippedOrder(a, b); }
  }

  /** Zero compares greater than a half. */
  lemma ZeroAboveHalf()
    ensures CompareLexemes("0", "0.5") == Some(Greater)
  {
    hide PartsOf, Denotes, CompareLexemes;
    PlainParts("0", []);
    PlainParts("0", "5");
    assert "0" + ("." + "5") == "0.5";
    FiveTenths();
    CompareLexemesIff("0", "0.5", 0, 5, 1);
  }

  lemma FiveTenths()
    ensures Denotes(Parts(false, "0", "", 0), 0, 1) && Denotes(Parts(false, "0", "5", 0), 5, 1)
    ensures ComparisonTrips(0, 5, 1)
  {
    assert "0" + "" == "0" && "0" + "5" == "05" && "05"[..1] == "0";
    assert Value("0") == 0 && Value("05") == 5;
    assert Pow10(0) == 1 && Pow10(1) == 10;
  }

  lemma OrderAgainst(a: Norm, b: Norm, x: int, y: int, s: nat)
    requires IsNorm(a) && Signed(a.negative, Value(a.digits)) * Pow10(s) == x * Pow10(a.scale)
    requires IsNorm(b) && Signed(b.negative, Value(b.digits)) * Pow10(s) == y * Pow10(b.scale)
    ensures var t := CommonScale(a, b); OrderOf(Scaled(a, t), Scaled(b, t)) == OrderOf(x, y)
  {
    hide Value, Pow10, Scaled;
    var t := CommonScale(a, b);
    ScaledAgainst(a, x, s, t);
    ScaledAgainst(b, y, s, t);
    MulLess(Scaled(a, t), Scaled(b, t), Pow10(s));
    MulLess(Scaled(b, t), Scaled(a, t), Pow10(s));
    MulLess(x, y, Pow10(t));
    MulLess(y, x, Pow10(t));
  }

  lemma TrippedOrder(a: Norm, b: Norm)
    requires IsNorm(a) && IsNorm(b) && CompareTrips(a, b)
    ensures CompareNormalized(a, b) == if IsZero(a) then Greater else Less
  {
    hide Value, Pow10, Padded, CompareDigitStrings;
    PaddedCompare(a, b);
  }
}
