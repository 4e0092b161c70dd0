/**
  The value transforms a mapping rule may name, and the strict boolean reader the
  mapper class also defines. `number | null` results are `Option<Number>`, with
  `None` standing for JavaScript `null`.
 */
module Transforms {
  import opened Outcomes
  import opened EcmaScript

  /** The lower-cased strings `stringToBoolean` reads as false. */
  const FalsyValues: seq<string> := ["0", "false", ""]

  /** `mapToBoolean`: only the exact string `true` is true. The mapper never calls it. */
  function MapToBoolean(value: string): (r: bool)
    ensures r ==> StringToBoolean(value)
  {
    value == "true"
  }

  /**
    `stringToBoolean`: true unless the lower-cased input is one of `FalsyValues`, that
    is, false exactly for the empty string, `0`, and `false` in any mix of cases.
   */
  function StringToBoolean(input: string): (r: bool)
    ensures !r <==> input == "" || input == "0" || IsCaseVariant(input, "false")
  {
    LowerCaseIsFalse(input);
    LowerCaseIsZero(input);
    ToLowerCase(input) !in FalsyValues
  }

  /** `stringToNullInt`: the empty string is null, anything else goes through `parseInt`. */
  function StringToNullInt(input: string): (r: Option<Number>)
    ensures r.None? <==> input == ""
  {
    if input == "" then None else Some(ParseInt(input))
  }

  /** `zeroStringToNullInt`: the string `0` is null too; anything else as `stringToNullInt`. */
  function ZeroStringToNullInt(input: string): (r: Option<Number>)
    ensures r.None? <==> input == "" || input == "0"
    ensures input != "0" ==> r == StringToNullInt(input)
  {
    if input == "0" then None else StringToNullInt(input)
  }

  /** `s` spells `word` with each letter in either case (`word` is lower case). */
  predicate IsCaseVariant(s: string, word: string) {
    |s| == |word| && forall i :: 0 <= i < |s| ==> s[i] == word[i] || s[i] == UpperChar(word[i])
  }

  lemma LowerCaseIsFalse(s: string)
    ensures ToLowerCase(s) == "false" <==> IsCaseVariant(s, "false")
  {
    var t := ToLowerCase(s);
    if IsCaseVariant(s, "false") {
      assert forall i :: 0 <= i < |s| ==> t[i] == "false"[i];
    }
    if t == "false" {
      assert forall i :: 0 <= i < |s| ==> LowerChar(s[i]) == "false"[i];
    }
  }

  lemma LowerCaseIsZero(s: string)
    ensures ToLowerCase(s) == "0" <==> s == "0"
  {
    var t := ToLowerCase(s);
    if t == "0" {
      assert t[0] == '0' && t[0] == LowerChar(s[0]);
      assert s == [s[0]];
    }
  }

  /** Falsy query values as `flip`, `flop` and `greyscale` read them. */
  lemma StringToBooleanFalsyExamples()
    ensures !StringToBoolean("") && !StringToBoolean("0") && !StringToBoolean("false")
    ensures !StringToBoolean("FALSE") && !StringToBoolean("False")
  {
  }

  /** Truthy query values: anything that is not explicitly falsy, malformed text included. */
  lemma StringToBooleanTruthyExamples()
    ensures StringToBoolean("1") && StringToBoolean("true") && StringToBoolean("yes")
    ensures StringToBoolean("no") && StringToBoolean("00")
  {
  }

  /** The strict reader accepts only what the lenient one accepts; the converse fails on `yes`. */
  lemma MapToBooleanIsStricter(s: string)
    ensures MapToBoolean(s) ==> StringToBoolean(s)
    ensures StringToBoolean("yes") && !MapToBoolean("yes")
  {
  }

  /** Any non-empty numeral reads back as its integer; in particular `rotate=0` is 0, not null. */
  lemma StringToNullIntOfNumeral(n: int)
    ensures StringToNullInt(IntToDecimal(n)) == Some(Integer(n))
  {
    ParseIntRoundTrip(n);
  }

  /** The numeral of a non-zero integer reads back as that integer; `0` alone is null. */
  lemma ZeroStringToNullIntOfNumeral(n: int)
    ensures n != 0 ==> ZeroStringToNullInt(IntToDecimal(n)) == Some(Integer(n))
    ensures n == 0 ==> ZeroStringToNullInt(IntToDecimal(n)) == None
  {
    var s := IntToDecimal(n);
    if n != 0 {
      assert s != "0" by {
        if n < 0 {
          assert s[0] == '-';
        } else {
          assert s == NatToDecimal(n) && s[0] != '0';
        }
      }
      StringToNullIntOfNumeral(n);
    } else {
      assert s == "0";
    }
  }

  /** Only the exact string `0` is unset: `00` still reads as the number 0. */
  lemma ZeroStringToNullIntDoubleZero()
    ensures ZeroStringToNullInt("00") == Some(Integer(0))
  {
    var z := "00";
    assert TrimStart(z) == z;
    assert !HasHexPrefix(z);
    assert DigitRun(z, 10) == 2 by {
      assert z[1..] == "0";
      assert "0"[1..] == "";
    }
    assert z[..2] == z;
    assert DigitsValue(z, 10) == 0 by {
      assert z[..1] == "0";
      assert "0"[..0] == "";
    }
    assert ParseDigits(z, 10) == Integer(0);
  }

  /** A signed zero is not the string `0` either: `+0` reads as the number 0. */
  lemma ZeroStringToNullIntSignedZero()
    ensures ZeroStringToNullInt("+0") == Some(Integer(0))
  {
    assert TrimStart("+0") == "+0";
    assert "+0"[1..] == "0";
    ParseUnsignedNumeral(0, "");
    assert NatToDecimal(0) + "" == "0";
  }
}
