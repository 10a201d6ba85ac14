/** Decimal digit strings of any length: carry addition, borrow subtraction and comparison, as the
    coverage counters do them, against the numbers the strings denote. */
module DigitStrings {
  import opened Decimal

  function Pow10(k: nat): (p: nat)
    ensures p > 0
  {
    if k == 0 then 1 else 10 * Pow10(k - 1)
  }

  lemma {:induction false} PowSum(a: nat, b: nat)
    ensures Pow10(a + b) == Pow10(a) * Pow10(b)
  {
    if b == 0 {
      assert Pow10(a) * 1 == Pow10(a);
    } else {
      PowSum(a, b - 1);
      assert a + b - 1 == a + (b - 1);
      Rescale(Pow10(a), Pow10(b - 1));
    }
  }

  lemma Rescale(x: nat, y: nat)
    ensures 10 * (x * y) == x * (10 * y)
  {}

  lemma {:induction false} PowMonotone(a: nat, b: nat)
    requires a <= b
    ensures Pow10(a) <= Pow10(b)
  {
    if a < b {
      PowMonotone(a, b - 1);
    }
  }

  function DigitOf(c: char): (d: nat)
    requires IsDigit(c)
    ensures d < 10
  {
    c as int - '0' as int
  }

  // ----- Values -----

  lemma ValueSnoc(s: string, c: char)
    requires AllDigits(s) && IsDigit(c)
    ensures AllDigits(s + [c]) && Value(s + [c]) == Value(s) * 10 + DigitOf(c)
  {
    assert (s + [c])[..|s|] == s;
  }

  lemma ValueOfNothing()
    ensures Value([]) == 0
  {}

  lemma PowNext(k: nat)
    ensures Pow10(k + 1) == 10 * Pow10(k) && Pow10(0) == 1
  {}

  lemma {:induction false} ValueCons(c: char, s: string)
    requires IsDigit(c) && AllDigits(s)
    ensures AllDigits([c] + s) && Value([c] + s) == DigitOf(c) * Pow10(|s|) + Value(s)
  {
    hide Value, Pow10;
    if s == [] {
      ValueSnoc([], c);
      ValueOfNothing();
      PowNext(0);
      assert [c] + s == [] + [c];
    } else {
      var init, last := s[..|s| - 1], s[|s| - 1];
      ValueCons(c, init);
      PowNext(|init|);
      assert [c] + s == ([c] + init) + [last] && s == init + [last];
      ValueSnoc([c] + init, last);
      ValueSnoc(init, last);
      Rescale(DigitOf(c), Pow10(|init|));
    }
  }

  lemma {:induction false} ValueBound(s: string)
    requires AllDigits(s)
    ensures Value(s) < Pow10(|s|)
  {
    if s != [] {
      ValueBound(s[..|s| - 1]);
    }
  }

  /** A string without a leading zero denotes a number of its own length. */
  lemma ValueFloor(s: string)
    requires AllDigits(s) && s != [] && s[0] != '0'
    ensures Value(s) >= Pow10(|s| - 1)
  {
    ValueCons(s[0], s[1..]);
    assert s == [s[0]] + s[1..];
    AtLeastOnce(DigitOf(s[0]), Pow10(|s| - 1));
  }

  lemma AtLeastOnce(d: nat, p: nat)
    requires d >= 1
    ensures d * p >= p
  {}

  lemma {:induction false} ValueAppend(s: string, t: string)
    requires AllDigits(s) && AllDigits(t)
    ensures AllDigits(s + t) && Value(s + t) == Value(s) * Pow10(|t|) + Value(t)
  {
    hide Value, Pow10;
    if t == [] {
      ValueOfNothing();
      PowNext(0);
      assert s + t == s && Value(s) * 1 == Value(s);
    } else {
      var init, last := t[..|t| - 1], t[|t| - 1];
      ValueAppend(s, init);
      PowNext(|init|);
      assert s + t == (s + init) + [last] && t == init + [last];
      ValueSnoc(s + init, last);
      ValueSnoc(init, last);
      Rescale(Value(s), Pow10(|init|));
    }
  }

  lemma {:induction false} ValueOfZeros(k: nat)
    ensures Value(Zeros(k)) == 0
  {
    if k > 0 {
      ValueOfZeros(k - 1);
      assert Zeros(k) == Zeros(k - 1) + ['0'];
      ValueSnoc(Zeros(k - 1), '0');
    }
  }

  /** Zeros at the end multiply by a power of ten. */
  lemma ValueScaled(s: string, k: nat)
    requires AllDigits(s)
    ensures AllDigits(s + Zeros(k)) && Value(s + Zeros(k)) == Value(s) * Pow10(k)
  {
    ValueAppend(s, Zeros(k));
    ValueOfZeros(k);
  }

  // ----- Digits least significant first -----

  /** Multiplication, so that a proof can leave it uninterpreted. */
  function Times(a: int, b: int): int {
    a * b
  }

  function Reading(out: string): nat
    requires AllDigits(out)
  {
    if out == [] then 0
    else
      assert Times(DigitOf(out[|out| - 1]), Pow10(|out| - 1)) >= 0;
      Reading(out[..|out| - 1]) + Times(DigitOf(out[|out| - 1]), Pow10(|out| - 1))
  }

  function Reversed(s: string): (r: string)
    ensures |r| == |s|
    ensures AllDigits(s) ==> AllDigits(r)
  {
    if s == [] then [] else [s[|s| - 1]] + Reversed(s[..|s| - 1])
  }

  lemma {:induction false} ReversedValue(out: string)
    requires AllDigits(out)
    ensures Value(Reversed(out)) == Reading(out) < Pow10(|out|)
  {
    if out != [] {
      var init := out[..|out| - 1];
      ReversedValue(init);
      ValueCons(out[|out| - 1], Reversed(init));
    }
    ValueBound(Reversed(out));
  }

  lemma ReadingSnoc(out: string, c: char)
    requires AllDigits(out) && IsDigit(c)
    ensures AllDigits(out + [c]) && Reading(out + [c]) == Reading(out) + Times(DigitOf(c), Pow10(|out|))
  {
    assert (out + [c])[..|out|] == out;
  }

  /** The last digit before position `i` and the rest. */
  lemma PrefixValue(s: string, i: nat)
    requires AllDigits(s) && 0 < i <= |s|
    ensures Value(s[..i]) == Value(s[..i - 1]) * 10 + DigitOf(s[i - 1])
  {
    assert s[..i][..i - 1] == s[..i - 1];
  }

  // ----- Addition -----

  lemma CarryStep(a: nat, b: nat, sum: nat, p: nat, r: nat)
    ensures (10 * (a + b) + sum) * p + r == (a + b + sum / 10) * (10 * p) + (r + (sum % 10) * p)
  {
    var q, m := sum / 10, sum % 10;
    assert sum == 10 * q + m;
    calc {
      (10 * (a + b) + sum) * p;
      (10 * (a + b + q) + m) * p;
      (10 * (a + b + q)) * p + m * p;
      (a + b + q) * (10 * p) + m * p;
    }
  }

  /** The digits written so far, and above them what is still to be combined. */
  ghost predicate Balanced(total: int, pending: int, p: nat, reading: nat) {
    total == Times(pending, p) + reading
  }

  /** What is still to be added above the digits already written. */
  ghost predicate Adding(left: string, right: string, i: nat, j: nat, carry: nat, out: string) {
    && AllDigits(left) && AllDigits(right) && AllDigits(out) && i <= |left| && j <= |right|
    && Balanced(Value(left) + Value(right), Value(left[..i]) + Value(right[..j]) + carry, Pow10(|out|), Reading(out))
  }

  lemma AddingStep(left: string, right: string, i: nat, j: nat, carry: nat, out: string)
    requires Adding(left, right, i, j, carry, out)
    ensures var a, b := if i > 0 then DigitOf(left[i - 1]) else 0, if j > 0 then DigitOf(right[j - 1]) else 0;
            var sum := carry + a + b;
            Adding(left, right, if i > 0 then i - 1 else 0, if j > 0 then j - 1 else 0, sum / 10,
                   out + [Digit(sum % 10)])
  {
    hide Value, Pow10, Reading, Balanced, Times;
    var a, b := if i > 0 then DigitOf(left[i - 1]) else 0, if j > 0 then DigitOf(right[j - 1]) else 0;
    var i', j' := if i > 0 then i - 1 else 0, if j > 0 then j - 1 else 0;
    var sum := carry + a + b;
    var l, r := Value(left[..i']), Value(right[..j']);
    ValueOfNothing();
    PowNext(|out|);
    if i > 0 { PrefixValue(left, i); } else { assert left[..0] == []; }
    if j > 0 { PrefixValue(right, j); } else { assert right[..0] == []; }
    ReadingSnoc(out, Digit(sum % 10));
    CarryOn(Value(left) + Value(right), l, a, r, b, carry, Pow10(|out|), Reading(out),
            Reading(out + [Digit(sum % 10)]));
  }

  lemma CarryOn(total: nat, l: nat, a: nat, r: nat, b: nat, carry: nat, p: nat, reading: nat, next: nat)
    requires Balanced(total, (l * 10 + a) + (r * 10 + b) + carry, p, reading)
    requires next == reading + Times((carry + a + b) % 10, p)
    ensures Balanced(total, l + r + (carry + a + b) / 10, 10 * p, next)
  {
    var sum := carry + a + b;
    assert (l * 10 + a) + (r * 10 + b) + carry == 10 * (l + r) + sum;
    CarryStep(l, r, sum, p, reading);
  }

  /** `add_digit_strings`: exact, for strings of any two lengths. */
  method AddDigitStrings(left: string, right: string) returns (digits: string)
    requires AllDigits(left) && AllDigits(right)
    ensures AllDigits(digits) && Value(digits) == Value(left) + Value(right)
    ensures |digits| >= |left| && |digits| >= |right|
  {
    hide Value, Reading, Pow10, Adding;
    var out := "";
    var carry, i, j := 0, |left|, |right|;
    AddingStart(left, right);
    while i > 0 || j > 0 || carry > 0
      invariant 0 <= i <= |left| && 0 <= j <= |right| && 0 <= carry <= 1
      invariant |out| + i >= |left| && |out| + j >= |right|
      invariant Adding(left, right, i, j, carry, out)
      decreases i + j, carry
    {
      AddingStep(left, right, i, j, carry, out);
      var sum := carry;
      if i > 0 {
        i := i - 1;
        sum := sum + DigitOf(left[i]);
      }
      if j > 0 {
        j := j - 1;
        sum := sum + DigitOf(right[j]);
      }
      out := out + [Digit(sum % 10)];
      carry := sum / 10;
    }
    AddingDone(left, right, out);
    digits := Reversed(out);
  }

  lemma AddingStart(left: string, right: string)
    requires AllDigits(left) && AllDigits(right)
    ensures Adding(left, right, |left|, |right|, 0, "")
  {
    assert left[..|left|] == left && right[..|right|] == right;
  }

  lemma AddingDone(left: string, right: string, out: string)
    requires Adding(left, right, 0, 0, 0, out)
    ensures AllDigits(out) && AllDigits(Reversed(out)) && Value(Reversed(out)) == Value(left) + Value(right)
  {
    hide Pow10, Reading, Reversed, Value;
    assert left[..0] == [] && right[..0] == [];
    ValueOfNothing();
    ReversedValue(out);
    assert (0 + 0 + 0) * Pow10(|out|) == 0;
  }

  // ----- Subtraction -----

  lemma BorrowStep(a: int, b: int, d: int, p: nat, r: nat)
    ensures (10 * (a - b) + d) * p + r == (a - b) * (10 * p) + (r + d * p)
  {
    calc {
      (10 * (a - b) + d) * p;
      (10 * (a - b)) * p + d * p;
      (a - b) * (10 * p) + d * p;
    }
  }

  ghost predicate Subtracting(left: string, right: string, i: nat, j: nat, borrow: nat, out: string) {
    && AllDigits(left) && AllDigits(right) && AllDigits(out) && i <= |left| && j <= |right| && |out| == |left| - i
    && Balanced(Value(left) - Value(right), Value(left[..i]) - Value(right[..j]) - borrow, Pow10(|out|), Reading(out))
  }

  lemma SubtractingStep(left: string, right: string, i: nat, j: nat, borrow: nat, out: string)
    requires Subtracting(left, right, i, j, borrow, out) && i > 0 && borrow <= 1
    ensures var digit := DigitOf(left[i - 1]) - borrow;
            var sub := if j > 0 then DigitOf(right[j - 1]) else 0;
            var next := if digit < sub then 1 else 0;
            Subtracting(left, right, i - 1, if j > 0 then j - 1 else 0, next, out + [Digit(digit + 10 * next - sub)])
  {
    hide Value, Pow10, Reading, Balanced, Times;
    var digit := DigitOf(left[i - 1]) - borrow;
    var sub := if j > 0 then DigitOf(right[j - 1]) else 0;
    var next := if digit < sub then 1 else 0;
    var d := digit + 10 * next - sub;
    ValueOfNothing();
    PowNext(|out|);
    var j' := if j > 0 then j - 1 else 0;
    var l, r := Value(left[..i - 1]), Value(right[..j']);
    PrefixValue(left, i);
    if j > 0 { PrefixValue(right, j); } else { assert right[..0] == []; }
    ReadingSnoc(out, Digit(d));
    BorrowOn(Value(left) - Value(right), l, r, DigitOf(left[i - 1]), sub, borrow, next, Pow10(|out|), Reading(out),
             Reading(out + [Digit(d)]));
  }

  lemma BorrowOn(total: int, l: nat, r: nat, a: nat, b: nat, borrow: nat, next: nat, p: nat, reading: nat, after: nat)
    requires Balanced(total, (l * 10 + a) - (r * 10 + b) - borrow, p, reading)
    requires after == reading + Times(a - borrow + 10 * next - b, p)
    ensures Balanced(total, l - r - next, 10 * p, after)
  {
    var d := a - borrow + 10 * next - b;
    assert (l * 10 + a) - (r * 10 + b) - borrow == 10 * (l - (r + next)) + d;
    BorrowStep(l, r + next, d, p, reading);
  }

  /** `sub_digit_strings`: subtraction modulo the length of the left string, hence exact when the
      left number is not below the right one. */
  method SubDigitStrings(left: string, right: string) returns (digits: string)
    requires AllDigits(left) && AllDigits(right) && left != []
    ensures AllDigits(digits) && digits != []
    ensures Value(digits) == (Value(left) - Value(right)) % Pow10(|left|)
    ensures Value(left) >= Value(right) ==> Value(digits) == Value(left) - Value(right)
  {
    hide Value, Reading, Pow10, Subtracting;
    var out := "";
    var borrow, i, j := 0, |left|, |right|;
    SubtractingStart(left, right);
    while i > 0
      invariant 0 <= i <= |left| && 0 <= j <= |right| && 0 <= borrow <= 1
      invariant |out| == |left| - i && AllDigits(out)
      invariant Subtracting(left, right, i, j, borrow, out)
    {
      SubtractingStep(left, right, i, j, borrow, out);
      i := i - 1;
      var digit := DigitOf(left[i]) - borrow;
      var sub := 0;
      if j > 0 {
        j := j - 1;
        sub := DigitOf(right[j]);
      }
      if digit < sub {
        digit := digit + 10;
        borrow := 1;
      } else {
        borrow := 0;
      }
      out := out + [Digit(digit - sub)];
    }
    SubtractingDone(left, right, j, borrow, out);
    while out[|out| - 1] == '0' && |out| > 1
      invariant out != [] && AllDigits(out)
      invariant Value(Reversed(out)) == (Value(left) - Value(right)) % Pow10(|left|)
    {
      PopZero(out);
      out := out[..|out| - 1];
    }
    digits := Reversed(out);
  }

  lemma SubtractingStart(left: string, right: string)
    requires AllDigits(left) && AllDigits(right)
    ensures Subtracting(left, right, |left|, |right|, 0, "")
  {
    assert left[..|left|] == left && right[..|right|] == right;
  }

  lemma SubtractingDone(left: string, right: string, j: nat, borrow: nat, out: string)
    requires AllDigits(left) && AllDigits(right) && AllDigits(out) && |out| == |left| && j <= |right|
    requires Subtracting(left, right, 0, j, borrow, out) && left != []
    ensures AllDigits(out) && out != []
    ensures Value(Reversed(out)) == (Value(left) - Value(right)) % Pow10(|left|)
    ensures Value(left) >= Value(right) ==> (Value(left) - Value(right)) % Pow10(|left|) == Value(left) - Value(right)
  {
    hide Value, Pow10, Reading, Subtracting, Reversed, Times;
    SubtractingEnd(left, right, j, borrow, out);
    ReversedValue(out);
    ValueBound(left);
    Residue(Value(left) - Value(right), 0 - Value(right[..j]) - borrow, Pow10(|left|), Reading(out));
    NoTimes(Pow10(|left|));
    if Value(left) >= Value(right) {
      Residue(Value(left) - Value(right), 0, Pow10(|left|), Value(left) - Value(right));
    }
  }

  lemma SubtractingEnd(left: string, right: string, j: nat, borrow: nat, out: string)
    requires AllDigits(left) && AllDigits(right) && AllDigits(out) && |out| == |left| && j <= |right|
    requires Subtracting(left, right, 0, j, borrow, out)
    ensures Balanced(Value(left) - Value(right), 0 - Value(right[..j]) - borrow, Pow10(|left|), Reading(out))
  {
    hide Pow10, Reading, Value, Balanced;
    NoPrefix(left);
    var above := Value(left[..0]) - Value(right[..j]) - borrow;
    assert Balanced(Value(left) - Value(right), above, Pow10(|out|), Reading(out));
    assert above == 0 - Value(right[..j]) - borrow;
  }

  lemma NoPrefix(s: string)
    requires AllDigits(s)
    ensures AllDigits(s[..0]) && Value(s[..0]) == 0
  {
    assert s[..0] == [];
  }

  lemma NoTimes(p: int)
    ensures Times(0, p) == 0
  {}

  lemma Residue(x: int, k: int, p: nat, r: nat)
    requires Balanced(x, k, p, r) && r < p
    ensures x % p == r
  {
    var q, m := x / p, x % p;
    assert x == p * q + m;
    assert (q - k) * p == r - m && (k - q) * p == m - r;
    if q > k {
      Apart(q - k, p);
    } else if q < k {
      Apart(k - q, p);
    }
  }

  lemma Apart(d: int, p: nat)
    requires d >= 1
    ensures d * p >= p
  {}

  lemma PopZero(out: string)
    requires AllDigits(out) && out != [] && out[|out| - 1] == '0'
    ensures Value(Reversed(out[..|out| - 1])) == Value(Reversed(out))
  {
    hide Value, Reversed, Reading, Pow10;
    var init := out[..|out| - 1];
    ReversedValue(out);
    ReversedValue(init);
    assert out == init + ['0'];
    ReadingSnoc(init, '0');
  }

  // ----- Comparison -----

  datatype Order = Less | Equal | Greater

  function OrderOf(x: int, y: int): Order {
    if x < y then Less else if x == y then Equal else Greater
  }

  /** Byte-wise comparison of strings of the same length. */
  function LexOrder(left: string, right: string): Order
    requires |left| == |right|
  {
    if left == [] then Equal
    else if left[0] < right[0] then Less
    else if left[0] > right[0] then Greater
    else LexOrder(left[1..], right[1..])
  }

  /** `compare_digit_strings`: the longer string wins, whatever its digits. */
  function CompareDigitStrings(left: string, right: string): Order {
    if |left| == |right| then LexOrder(left, right) else OrderOf(|left|, |right|)
  }

  lemma {:induction false} LexMeans(left: string, right: string)
    requires AllDigits(left) && AllDigits(right) && |left| == |right|
    ensures LexOrder(left, right) == OrderOf(Value(left), Value(right))
  {
    if left != [] {
      var l, r := left[1..], right[1..];
      LexMeans(l, r);
      ValueCons(left[0], l);
      ValueCons(right[0], r);
      assert left == [left[0]] + l && right == [right[0]] + r;
      ValueBound(l);
      ValueBound(r);
      if left[0] < right[0] {
        Dominates(DigitOf(left[0]), DigitOf(right[0]), Pow10(|l|), Value(l), Value(r));
      } else if right[0] < left[0] {
        Dominates(DigitOf(right[0]), DigitOf(left[0]), Pow10(|l|), Value(r), Value(l));
      }
    }
  }

  lemma Dominates(a: nat, b: nat, p: nat, x: nat, y: nat)
    requires a < b && x < p
    ensures a * p + x < b * p + y
  {
    assert (b - a) * p >= p by { AtLeastOnce(b - a, p); }
    assert b * p == a * p + (b - a) * p;
  }

  /** The comparison is numeric when no string that is longer starts with a zero. */
  lemma CompareMeans(left: string, right: string)
    requires AllDigits(left) && AllDigits(right)
    requires |left| > |right| ==> left[0] != '0'
    requires |right| > |left| ==> right[0] != '0'
    ensures CompareDigitStrings(left, right) == OrderOf(Value(left), Value(right))
  {
    if |left| == |right| {
      LexMeans(left, right);
    } else if |left| > |right| {
      LongerIsGreater(left, right);
    } else {
      LongerIsGreater(right, left);
    }
  }

  lemma LongerIsGreater(long: string, short: string)
    requires AllDigits(long) && AllDigits(short) && |long| > |short| && long[0] != '0'
    ensures Value(long) > Value(short)
  {
    ValueFloor(long);
    ValueBound(short);
    PowMonotone(|short|, |long| - 1);
  }
}
