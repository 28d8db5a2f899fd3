/** Decimal numbers as they travel in request arguments: 64-bit, unsigned. */
module Numbers {
  import opened Wrappers

  const U64: nat := 0x1_0000_0000_0000_0000

  const DIGITS := "0123456789"

  predicate IsDigit(c: char) {
    '0' <= c <= '9'
  }

  function DigitValue(c: char): (d: nat)
    requires IsDigit(c)
    ensures d < 10
  {
    c as int - '0' as int
  }

  function Print(n: nat): (s: string)
    ensures s != "" && forall i :: 0 <= i < |s| ==> IsDigit(s[i])
  {
    if n < 10 then [DIGITS[n]] else Print(n / 10) + [DIGITS[n % 10]]
  }

  function ParseDigits(s: string): Option<nat> {
    if s == "" then Some(0)
    else if !IsDigit(s[|s| - 1]) then None
    else match ParseDigits(s[..|s| - 1])
      case None => None
      case Some(v) => Some(v * 10 + DigitValue(s[|s| - 1]))
  }

  // `str::parse::<u64>`: an optional plus sign, at least one digit, no overflow.
  function ParseU64(s: string): Option<nat> {
    var digits := if s != "" && s[0] == '+' then s[1..] else s;
    if digits == "" then None
    else match ParseDigits(digits)
      case None => None
      case Some(v) => if v < U64 then Some(v) else None
  }

  lemma {:induction false} ParseDigitsOfPrint(n: nat)
    ensures ParseDigits(Print(n)) == Some(n)
  {
    var s := Print(n);
    if n < 10 {
      assert s[..|s| - 1] == "";
    } else {
      ParseDigitsOfPrint(n / 10);
      assert s[..|s| - 1] == Print(n / 10);
    }
  }

  lemma ParseOfPrint(n: nat)
    ensures ParseU64(Print(n)) == if n < U64 then Some(n) else None
  {
    ParseDigitsOfPrint(n);
    assert IsDigit(Print(n)[0]);
  }

  predicate AllDigits(s: string) {
    forall i :: 0 <= i < |s| ==> IsDigit(s[i])
  }

  function PowerOfTen(n: nat): nat {
    if n == 0 then 1 else 10 * PowerOfTen(n - 1)
  }

  // The number that a text of digits stands for.
  function Value(s: string): nat
    requires AllDigits(s)
  {
    if s == "" then 0 else DigitValue(s[0]) * PowerOfTen(|s| - 1) + Value(s[1..])
  }

  lemma {:induction false} ValueOfLonger(s: string, c: char)
    requires AllDigits(s) && IsDigit(c)
    ensures AllDigits(s + [c]) && Value(s + [c]) == Value(s) * 10 + DigitValue(c)
  {
    assert AllDigits(s + [c]);
    if s == "" {
      assert s + [c] == [c] && [c][1..] == "" && PowerOfTen(0) == 1;
    } else {
      assert (s + [c])[1..] == s[1..] + [c];
      ValueOfLonger(s[1..], c);
      Shifted(DigitValue(s[0]), PowerOfTen(|s| - 1), Value(s[1..]));
    }
  }

  lemma Shifted(d: nat, p: nat, rest: nat)
    ensures d * (10 * p) + rest * 10 == (d * p + rest) * 10
  {
  }

  lemma {:induction false} ParseDigitsIs(s: string)
    ensures ParseDigits(s) == if AllDigits(s) then Some(Value(s)) else None
  {
    if s != "" {
      var last := |s| - 1;
      ParseDigitsIs(s[..last]);
      assert s == s[..last] + [s[last]];
      if AllDigits(s) { ValueOfLonger(s[..last], s[last]); }
    }
  }

  // A text is read exactly if, after a plus sign or without one, it is a decimal number that
  // fits, and then as that number.
  lemma ParseU64Iff(digits: string)
    requires digits != "" && digits[0] != '+'
    ensures ParseU64(digits) == ParseU64("+" + digits)
            == if AllDigits(digits) && Value(digits) < U64 then Some(Value(digits)) else None
    ensures ParseU64("") == ParseU64("+") == ParseU64("++" + digits) == None
  {
    ParseDigitsIs(digits);
    assert ("+" + digits)[1..] == digits;
    assert ("++" + digits)[1..] == "+" + digits && ("+" + digits)[0] == '+' && !AllDigits("+" + digits);
    ParseDigitsIs("+" + digits);
  }

  function SaturatingMul(a: nat, b: nat): (r: nat)
    ensures r == a * b || (r == U64 - 1 && a * b >= U64)
  {
    if a * b < U64 then a * b else U64 - 1
  }

  function Unit(s: string): nat {
    if s == "" then 1 else
      match s[|s| - 1]
      case 'K' => 1_000
      case 'k' => 1_000
      case 'M' => 1_000_000
      case 'm' => 1_000_000
      case 'G' => 1_000_000_000
      case 'g' => 1_000_000_000
      case 'T' => 1_000_000_000_000
      case 't' => 1_000_000_000_000
      case _ => 1
  }

  // `parse_size`: a decimal number with an optional unit of a thousand, million, ...
  function ParseSize(s: string): Option<nat> {
    if Unit(s) == 1 then ParseU64(s)
    else match ParseU64(s[..|s| - 1])
      case None => None
      case Some(v) => Some(SaturatingMul(v, Unit(s)))
  }

  // A printed number is read back as itself.
  lemma ParseSizeOfPrint(n: nat)
    requires n < U64
    ensures ParseSize(Print(n)) == Some(n)
  {
    ParseOfPrint(n);
    DigitIsNoUnit(Print(n));
  }

  lemma DigitIsNoUnit(s: string)
    requires s != "" && IsDigit(s[|s| - 1])
    ensures Unit(s) == 1
  {
  }

  // With the letter of a thousand, a million, a milliard or a billion it is read as that many
  // times the number, at most the largest 64-bit number; another letter is an error.
  lemma ParseSizeOfUnit(n: nat, unit: char)
    requires n < U64
    ensures unit == 'K' || unit == 'k' ==> ParseSize(Print(n) + [unit]) == Some(AtMost(n * 1_000))
    ensures unit == 'M' || unit == 'm' ==> ParseSize(Print(n) + [unit]) == Some(AtMost(n * 1_000_000))
    ensures unit == 'G' || unit == 'g' ==> ParseSize(Print(n) + [unit]) == Some(AtMost(n * 1_000_000_000))
    ensures unit == 'T' || unit == 't' ==> ParseSize(Print(n) + [unit]) == Some(AtMost(n * 1_000_000_000_000))
    ensures Unit([unit]) == 1 && !IsDigit(unit) ==> ParseSize(Print(n) + [unit]) == None
  {
    ParseOfPrint(n);
    var s := Print(n) + [unit];
    assert s[..|s| - 1] == Print(n);
    assert Unit(s) == Unit([unit]);
    assert IsDigit(Print(n)[0]) && s[0] == Print(n)[0];
  }

  function AtMost(n: nat): nat {
    if n < U64 then n else U64 - 1
  }
}
