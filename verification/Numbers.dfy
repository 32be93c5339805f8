/** Decimal text of 64-bit numbers: std::to_string, std::from_chars and src/common/parse_utils.cpp. */
module Numbers {
  import opened Core

  function Digit(d: nat): char
    requires d < 10
  {
    '0' + d as char
  }

  predicate IsDigit(c: char) {
    '0' <= c <= '9'
  }

  function DigitValue(c: char): nat
    requires IsDigit(c)
  {
    c as int - '0' as int
  }

  predicate AllDigits(text: string) {
    forall i :: 0 <= i < |text| ==> IsDigit(text[i])
  }

  /** std::to_string of an unsigned number. */
  function Decimal(n: nat): (text: string)
    ensures text != [] && AllDigits(text)
  {
    if n < 10 then [Digit(n)] else Decimal(n / 10) + [Digit(n % 10)]
  }

  function DigitsValue(text: string): nat
    requires AllDigits(text)
  {
    if text == [] then 0 else 10 * DigitsValue(text[..|text| - 1]) + DigitValue(text[|text| - 1])
  }

  lemma {:induction false} DecimalValue(n: nat)
    ensures DigitsValue(Decimal(n)) == n
  {
    var text := Decimal(n);
    if n >= 10 {
      assert text[..|text| - 1] == Decimal(n / 10);
      DecimalValue(n / 10);
    }
  }

  lemma DecimalInjective(a: nat, b: nat)
    requires Decimal(a) == Decimal(b)
    ensures a == b
  {
    DecimalValue(a);
    DecimalValue(b);
  }

  /** std::from_chars into std::uint64_t, the whole text being consumed. */
  function ParseU64(text: string): Option<nat> {
    if text == [] || !AllDigits(text) || DigitsValue(text) > U64_MAX then None else Some(DigitsValue(text))
  }

  lemma ParseU64OfDecimal(n: nat)
    ensures ParseU64(Decimal(n)) == if n <= U64_MAX then Some(n) else None
  {
    DecimalValue(n);
  }

  /** std::to_string of a signed number. */
  function DecimalOfInt(n: int): string {
    if n < 0 then "-" + Decimal(-n) else Decimal(n)
  }

  const I64_MAX: int := 0x7FFF_FFFF_FFFF_FFFF
  const I64_MIN: int := -0x8000_0000_0000_0000

  predicate IsSpace(c: char) {
    c == ' ' || '\t' <= c <= '\r'
  }

  /** The part of the text that a C string function sees: it ends at the first zero byte. */
  function CText(text: string): string {
    if text == [] || text[0] == '\0' then [] else [text[0]] + CText(text[1..])
  }

  /** ParseInt64: no leading space, an optional sign, digits up to the end of the C string, in range. */
  function ParseInt64(text: string): Option<int> {
    if text == [] || IsSpace(text[0]) then None
    else
      var c := CText(text);
      var negative := c != [] && c[0] == '-';
      var digits := if c != [] && (c[0] == '-' || c[0] == '+') then c[1..] else c;
      if digits == [] || !AllDigits(digits) then None
      else
        var value: int := DigitsValue(digits);
        var n := if negative then -value else value;
        if I64_MIN <= n <= I64_MAX then Some(n) else None
  }

  lemma {:induction false} CTextOfDigits(text: string)
    requires AllDigits(text)
    ensures CText(text) == text
  {
    if text == [] {
    } else {
      CTextOfDigits(text[1..]);
    }
  }

  lemma ParseInt64OfDecimal(n: int)
    requires I64_MIN <= n <= I64_MAX
    ensures ParseInt64(DecimalOfInt(n)) == Some(n)
  {
    var digits := Decimal(if n < 0 then -n else n);
    DecimalValue(if n < 0 then -n else n);
    CTextOfDigits(digits);
    if n < 0 {
      assert DecimalOfInt(n)[1..] == digits;
    }
  }

  function SignedValue(negative: bool, digits: string): int
    requires AllDigits(digits)
  {
    var value: int := DigitsValue(digits);
    if negative then -value else value
  }

  /** One if the text starts with a sign, otherwise none. */
  function Signs(text: string): nat {
    if text != "" && (text[0] == '-' || text[0] == '+') then 1 else 0
  }

  /** The text spells the number: a sign or none, digits, and then the end of the text or a zero byte. */
  ghost predicate Spells(text: string, n: int) {
    exists k: nat {:trigger AllDigits(text[Signs(text)..k])} :: Signs(text) < k <= |text|
      && AllDigits(text[Signs(text)..k]) && (k == |text| || text[k] == '\0')
      && n == SignedValue(text[0] == '-', text[Signs(text)..k])
  }

  lemma {:induction false} CTextEnds(text: string)
    ensures var c := CText(text);
            c <= text && (forall i :: 0 <= i < |c| ==> c[i] != '\0') && (|c| < |text| ==> text[|c|] == '\0')
  {
    if text == [] || text[0] == '\0' {
    } else {
      CTextEnds(text[1..]);
      assert text == [text[0]] + text[1..];
    }
  }

  lemma DigitsEndCText(text: string, k: nat)
    requires Signs(text) < k <= |text| && AllDigits(text[Signs(text)..k]) && (k == |text| || text[k] == '\0')
    ensures |CText(text)| == k && !IsSpace(text[0])
  {
    CTextEnds(text);
    var digits := text[Signs(text)..k];
    assert forall i :: Signs(text) <= i < k ==> text[i] == digits[i - Signs(text)];
  }

  /** A text is read as a number exactly if it spells it and the number is a signed 64-bit number. */
  lemma ParseInt64IsExact(text: string, n: int)
    ensures ParseInt64(text) == Some(n) <==> Spells(text, n) && -0x8000_0000_0000_0000 <= n <= 0x7FFF_FFFF_FFFF_FFFF
  {
    CTextEnds(text);
    var c := CText(text);
    if ParseInt64(text) == Some(n) {
      assert text[Signs(text)..|c|] == c[Signs(text)..];
      assert AllDigits(text[Signs(text)..|c|]);
    }
    if Spells(text, n) {
      var k: nat :| Signs(text) < k <= |text| && AllDigits(text[Signs(text)..k]) && (k == |text| || text[k] == '\0')
        && n == SignedValue(text[0] == '-', text[Signs(text)..k]);
      DigitsEndCText(text, k);
      assert text[Signs(text)..k] == c[Signs(text)..];
    }
  }
}
