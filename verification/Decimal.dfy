/** Decimal text of unsigned numbers: `format!("{n}")` and `str::parse::<u64>()`. */
module Decimal {
  import opened Prelude

  predicate IsDigit(c: char) { '0' <= c <= '9' }

  predicate AllDigits(s: string) { forall i :: 0 <= i < |s| ==> IsDigit(s[i]) }

  function Digit(d: nat): (c: char)
    requires d < 10
    ensures IsDigit(c) && (c - '0') as int == d
  {
    '0' + d as char
  }

  function Print(n: nat): (s: string)
    ensures |s| > 0 && AllDigits(s)
  {
    if n < 10 then [Digit(n)] else Print(n / 10) + [Digit(n % 10)]
  }

  function Value(s: string): nat
    requires AllDigits(s)
  {
    if s == "" then 0 else Value(s[..|s| - 1]) * 10 + (s[|s| - 1] - '0') as int
  }

  /** Rust accepts one leading plus sign, leading zeros, and nothing above 2^64 - 1. */
  function ParseU64(s: string): Option<U64> {
    var digits := if |s| > 1 && s[0] == '+' then s[1..] else s;
    if digits == "" || !AllDigits(digits) || Value(digits) >= U64_LIMIT then None
    else Some(Value(digits))
  }

  lemma {:induction false} ValueOfPrint(n: nat)
    ensures Value(Print(n)) == n
  {
    var s := Print(n);
    if n < 10 {
      assert s[..|s| - 1] == "";
    } else {
      ValueOfPrint(n / 10);
      assert s[..|s| - 1] == Print(n / 10);
    }
  }

  lemma ParsePrint(n: U64)
    ensures ParseU64(Print(n)) == Some(n)
  {
    ValueOfPrint(n);
    assert IsDigit(Print(n)[0]);
  }

  lemma PrintInjective(m: nat, n: nat)
    requires Print(m) == Print(n)
    ensures m == n
  {
    ValueOfPrint(m);
    ValueOfPrint(n);
  }

  function Pow10(k: nat): (p: nat)
    ensures p > 0
  {
    if k == 0 then 1 else 10 * Pow10(k - 1)
  }

  lemma {:induction false} PrintWidth(n: nat, k: nat)
    requires k > 0 && n < Pow10(k)
    ensures |Print(n)| <= k
  {
    assert Pow10(1) == 10;
    if n >= 10 {
      PrintWidth(n / 10, k - 1);
    }
  }

  // ---- What is read as which number --------------------------------------------------------

  function Zeros(k: nat): (s: string)
    ensures |s| == k && AllDigits(s)
  {
    seq(k, _ => '0')
  }

  lemma {:induction false} ValueOfAppend(a: string, b: string)
    requires AllDigits(a) && AllDigits(b) && AllDigits(a + b)
    ensures Value(a + b) == Value(a) * Pow10(|b|) + Value(b)
  {
    if b == "" {
      assert a + b == a;
    } else {
      var front, last := b[..|b| - 1], b[|b| - 1];
      assert (a + b)[..|a + b| - 1] == a + front;
      ValueOfAppend(a, front);
      Distribute(Value(a), Pow10(|front|), Value(front));
    }
  }

  lemma Distribute(a: nat, p: nat, v: nat)
    ensures (a * p + v) * 10 == a * (10 * p) + v * 10
  {
  }

  lemma {:induction false} ValueOfZeros(k: nat)
    ensures Value(Zeros(k)) == 0
  {
    if k > 0 {
      assert Zeros(k)[..k - 1] == Zeros(k - 1);
      ValueOfZeros(k - 1);
    }
  }

  /** Every digit string is leading zeros and the plain decimal of its value. */
  lemma {:induction false} DigitsAreZerosAndNumber(s: string) returns (k: nat)
    requires s != "" && AllDigits(s)
    ensures s == Zeros(k) + Print(Value(s))
  {
    var front, last := s[..|s| - 1], s[|s| - 1];
    var digit := (last - '0') as int;
    LastDigit(s, front, last, digit);
    if front == "" {
      k := 0;
      OneDigit(s, digit);
    } else {
      var before := DigitsAreZerosAndNumber(front);
      k := OneMoreDigit(front, before, Value(front), digit, last);
    }
  }

  lemma LastDigit(s: string, front: string, last: char, digit: int)
    requires s != "" && AllDigits(s) && front == s[..|s| - 1] && last == s[|s| - 1] && digit == (last - '0') as int
    ensures s == front + [last] && AllDigits(front) && 0 <= digit < 10 && last == Digit(digit)
    ensures Value(s) == Value(front) * 10 + digit
    ensures front == "" ==> Value(s) == digit && |s| == 1
  {
    assert IsDigit(last);
    if front == "" { assert Value(front) == 0; }
  }

  lemma OneDigit(s: string, digit: nat)
    requires digit < 10 && |s| == 1 && s[0] == Digit(digit)
    ensures s == Zeros(0) + Print(digit)
  {
  }

  lemma OneMoreDigit(front: string, k: nat, v: nat, digit: nat, last: char) returns (j: nat)
    requires digit < 10 && last == Digit(digit) && front == Zeros(k) + Print(v)
    ensures front + [last] == Zeros(j) + Print(v * 10 + digit)
  {
    if v == 0 {
      j := k + 1;
      assert front == Zeros(k + 1);
      assert front + [last] == Zeros(k + 1) + Print(digit);
    } else {
      j := k;
      DivModUnique(v * 10 + digit, 10, v, digit);
      assert front + [last] == Zeros(k) + Print(v * 10 + digit);
    }
  }

  /** One optional plus sign, `k` zeros, and the plain decimal. */
  function Spelling(plus: bool, k: nat, n: nat): string { (if plus then "+" else "") + (Zeros(k) + Print(n)) }

  lemma SpellingParses(plus: bool, k: nat, n: nat)
    requires n < U64_LIMIT
    ensures ParseU64(Spelling(plus, k, n)) == Some(n)
  {
    var digits := Zeros(k) + Print(n);
    ValueOfAppend(Zeros(k), Print(n));
    ValueOfZeros(k);
    ValueOfPrint(n);
    assert IsDigit(digits[0]);
    if plus { assert ("+" + digits)[1..] == digits; } else { assert "" + digits == digits; }
  }

  lemma ParsedIsSpelled(s: string)
    requires ParseU64(s).Some?
    ensures exists plus, k :: s == Spelling(plus, k, ParseU64(s).value)
  {
    var plus := |s| > 1 && s[0] == '+';
    var digits := if plus then s[1..] else s;
    var k := DigitsAreZerosAndNumber(digits);
    assert s == (if plus then "+" else "") + digits;
    assert s == Spelling(plus, k, ParseU64(s).value);
  }

  /**
   * Exactly what parses: at most one plus sign, any number of zeros, and the decimal of a number
   * below 2^64, which is then the result.
   */
  lemma ParsesIff(s: string, n: nat)
    ensures ParseU64(s) == Some(n) <==> n < 0x1_0000_0000_0000_0000 && exists plus, k :: s == Spelling(plus, k, n)
  {
    if ParseU64(s) == Some(n) { ParsedIsSpelled(s); }
    if plus, k :| s == Spelling(plus, k, n) && n < U64_LIMIT { SpellingParses(plus, k, n); }
  }
}
