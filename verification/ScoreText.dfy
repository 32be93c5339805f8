/**
 * Score text (FormatScore in src/repl/snapshot_codec.cpp): the printed number loses its trailing zeros whenever it
 * holds a point, even when those zeros belong to the exponent.
 */
module ScoreText {
  import opened Core
  import opened Numbers

  /** n times ten to the power e. */
  function Scaled(n: nat, e: int): real
    decreases if e < 0 then -e else e
  {
    if e == 0 then n as real else if e > 0 then 10.0 * Scaled(n, e - 1) else Scaled(n, e + 1) / 10.0
  }

  /**
   * What the stream prints for a score: a mantissa without trailing zeros and, for very large or small ones, a power of
   * ten.
   */
  datatype Printed = Printed(negative: bool, whole: string, fraction: string, expNegative: bool, expDigits: string) {
    predicate Valid() {
      && whole != [] && AllDigits(whole)
      && AllDigits(fraction) && (fraction != [] ==> fraction[|fraction| - 1] != '0')
      && AllDigits(expDigits)
      && (expDigits != [] ==> DigitsValue(expDigits) > 0 && DigitsValue(whole + fraction) > 0)
    }

    function Exponent(): int
      requires Valid()
    {
      var size: int := DigitsValue(expDigits);
      if expNegative then -size else size
    }

    function Value(): real
      requires Valid()
    {
      var size := Scaled(DigitsValue(whole + fraction), Exponent() - |fraction|);
      if negative then -size else size
    }

    function Mantissa(): string {
      (if negative then "-" else "") + whole + (if fraction == [] then "" else "." + fraction)
    }

    function Mark(): string {
      if expNegative then "e-" else "e+"
    }

    function ExponentText(): string {
      if expDigits == [] then "" else Mark() + expDigits
    }

    function Text(): string {
      Mantissa() + ExponentText()
    }
  }

  lemma {:induction false} ScaledPositive(n: nat, e: int)
    requires n > 0
    ensures Scaled(n, e) > 0.0
    decreases if e < 0 then -e else e
  {
    if e > 0 {
      ScaledPositive(n, e - 1);
    } else if e < 0 {
      ScaledPositive(n, e + 1);
    }
  }

  lemma {:induction false} ScaledGrows(n: nat, a: int, b: int)
    requires n > 0 && a < b
    ensures 0.0 < Scaled(n, a) < Scaled(n, b)
    decreases b - a
  {
    ScaledPositive(n, a);
    ScaledPositive(n, b - 1);
    assert Scaled(n, b) == 10.0 * Scaled(n, b - 1);
    if a < b - 1 {
      ScaledGrows(n, a, b - 1);
    }
  }

  function DropZeros(text: string): string {
    if text != [] && text[|text| - 1] == '0' then DropZeros(text[..|text| - 1]) else text
  }

  /** The zero stripping of FormatScore. */
  function Strip(text: string): string {
    if '.' !in text then text
    else
      var short := DropZeros(text);
      if short != [] && short[|short| - 1] == '.' then short[..|short| - 1] else short
  }

  function FormatScore(show: real -> Printed, score: real): string {
    Strip(show(score).Text())
  }

  /** The number that the stripped text denotes. */
  function Stripped(p: Printed): Printed {
    if p.fraction != [] && p.expDigits != [] then p.(expDigits := DropZeros(p.expDigits)) else p
  }

  /** The guard under which stripping is harmless: no point, no exponent, or an exponent not ending in 0. */
  predicate TextSafe(p: Printed) {
    p.fraction == [] || p.expDigits == [] || p.expDigits[|p.expDigits| - 1] != '0'
  }

  lemma {:induction false} DropZerosOfDigits(digits: string)
    requires AllDigits(digits) && DigitsValue(digits) > 0
    ensures var d := DropZeros(digits);
            d != [] && AllDigits(d) && d[|d| - 1] != '0' && 0 < DigitsValue(d) <= DigitsValue(digits)
    ensures DigitsValue(DropZeros(digits)) == DigitsValue(digits) <==> digits[|digits| - 1] != '0'
  {
    if digits[|digits| - 1] == '0' {
      DropZerosOfDigits(digits[..|digits| - 1]);
    }
  }

  lemma {:induction false} DropZerosKeepsPrefix(prefix: string, digits: string)
    requires AllDigits(digits) && DigitsValue(digits) > 0
    ensures DropZeros(prefix + digits) == prefix + DropZeros(digits)
  {
    if digits[|digits| - 1] == '0' {
      assert (prefix + digits)[..|prefix + digits| - 1] == prefix + digits[..|digits| - 1];
      DropZerosKeepsPrefix(prefix, digits[..|digits| - 1]);
    }
  }

  lemma PointInText(p: Printed)
    requires p.Valid()
    ensures '.' in p.Text() <==> p.fraction != []
  {
    var text := p.Text();
    if p.fraction == [] {
      assert forall i :: 0 <= i < |text| ==> text[i] != '.';
    } else {
      assert text[(if p.negative then 1 else 0) + |p.whole|] == '.';
    }
  }

  lemma StripPrefixed(prefix: string, digits: string)
    requires '.' in prefix && AllDigits(digits) && DigitsValue(digits) > 0
    ensures Strip(prefix + digits) == prefix + DropZeros(digits)
  {
    DropZerosOfDigits(digits);
    DropZerosKeepsPrefix(prefix, digits);
    assert '.' in prefix + digits;
    var short := prefix + DropZeros(digits);
    assert short[|short| - 1] == DropZeros(digits)[|DropZeros(digits)| - 1];
  }

  lemma TextSplits(p: Printed)
    requires p.expDigits != []
    ensures p.Text() == (p.Mantissa() + p.Mark()) + p.expDigits
    ensures p.fraction != [] ==> '.' in p.Mantissa() + p.Mark()
  {
    if p.fraction != [] {
      assert (p.Mantissa() + p.Mark())[(if p.negative then 1 else 0) + |p.whole|] == '.';
    }
  }

  lemma StripWithExponent(p: Printed)
    requires p.Valid() && p.fraction != [] && p.expDigits != []
    ensures Stripped(p).Valid() && Strip(p.Text()) == Stripped(p).Text()
  {
    TextSplits(p);
    DropZerosOfDigits(p.expDigits);
    StripPrefixed(p.Mantissa() + p.Mark(), p.expDigits);
    TextSplits(Stripped(p));
  }

  lemma StripOfText(p: Printed)
    requires p.Valid()
    ensures Stripped(p).Valid() && Strip(p.Text()) == Stripped(p).Text()
  {
    PointInText(p);
    if p.fraction != [] {
      if p.expDigits == [] {
        var text := p.Text();
        assert text[|text| - 1] == p.fraction[|p.fraction| - 1];
      } else {
        StripWithExponent(p);
      }
    }
  }

  /**
   * What printing and reading do to a score: the printed number reads back as the score unless the reader refuses it
   * (out of range), and no text that denotes another number, zeros of the exponent being gone, reads as the score.
   */
  ghost predicate PrintsFairly(parse: string -> Option<real>, show: real -> Printed, score: real) {
    var p := show(score);
    && p.Valid() && (parse(p.Text()).Some? ==> parse(p.Text()) == Some(score))
    && (Stripped(p).Valid() && Stripped(p).Value() != p.Value() ==> parse(Stripped(p).Text()) != Some(score))
  }

  /** The guard under which a score survives: its text is safe to strip, and the reader does not refuse it. */
  predicate Survives(parse: string -> Option<real>, show: real -> Printed, score: real) {
    TextSafe(show(score)) && parse(show(score).Text()).Some?
  }

  lemma SameValueSameExponent(p: Printed, q: Printed)
    requires p.Valid() && q.Valid() && q == p.(expDigits := q.expDigits) && p.expDigits != []
    ensures p.Value() == q.Value() <==> DigitsValue(p.expDigits) == DigitsValue(q.expDigits)
  {
    var n, e, e' := DigitsValue(p.whole + p.fraction), p.Exponent() - |p.fraction|, q.Exponent() - |q.fraction|;
    if e < e' {
      ScaledGrows(n, e, e');
    } else if e' < e {
      ScaledGrows(n, e', e);
    }
  }

  lemma StrippedValue(p: Printed)
    requires p.Valid() && Stripped(p).Valid()
    ensures Stripped(p).Value() == p.Value() <==> TextSafe(p)
  {
    if p.fraction != [] && p.expDigits != [] {
      DropZerosOfDigits(p.expDigits);
      SameValueSameExponent(p, Stripped(p));
    }
  }

  /** A score comes back from its text exactly when its printed form is safe to strip and in the reader's range. */
  lemma ScoreRoundTrip(parse: string -> Option<real>, show: real -> Printed, score: real)
    requires PrintsFairly(parse, show, score)
    ensures parse(FormatScore(show, score)) == Some(score) <==> Survives(parse, show, score)
  {
    var p := show(score);
    StripOfText(p);
    StrippedValue(p);
    if TextSafe(p) && p.expDigits != [] {
      DropZerosOfDigits(p.expDigits);
    }
  }

  /** The score 1.5e+20 is written as 1.5e+2 and read back as 150. */
  lemma LargeScoreLosesItsZero(parse: string -> Option<real>, show: real -> Printed, score: real)
    requires score == 150_000_000_000_000_000_000.0 && show(score) == Printed(false, "1", "5", false, "20")
    requires parse("1.5e+2") == Some(150.0)
    ensures parse(FormatScore(show, score)) == Some(150.0) != Some(score)
  {
    var text := "1.5e+20";
    assert show(score).Text() == text;
    assert text[1] == '.' && text[..6] == "1.5e+2" && text[6] == '0';
    assert DropZeros(text) == DropZeros(text[..6]) == text[..6];
  }
}
