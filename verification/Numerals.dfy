// Decimal strings from the other side: which strings xahValueToDrops takes,
// character by character, and what it makes of a number written out.

module Numerals {
  import opened NativeAmounts

  const DIGITS: string := "0123456789"

  // ---- Numbers written out ----

  function Numeral(n: nat): (s: string)
    ensures s != ""
  {
    if n < 10 then [DIGITS[n]] else Numeral(n / 10) + [DIGITS[n % 10]]
  }

  /** The last digits of a number, leading zeros included. */
  function LastDigits(n: nat, width: nat): (s: string)
    ensures |s| == width
  {
    if width == 0 then "" else LastDigits(n / 10, width - 1) + [DIGITS[n % 10]]
  }

  lemma DigitReads(n: nat)
    requires n < 10
    ensures IsDigit(DIGITS[n]) && DigitValue(DIGITS[n]) == n && (n == 0 <==> DIGITS[n] == '0')
  {
  }

  lemma DigitAppended(s: string, n: nat)
    requires Digits(s) && n < 10
    ensures Digits(s + [DIGITS[n]]) && Number(s + [DIGITS[n]]) == 10 * Number(s) + n
  {
    DigitReads(n);
    assert (s + [DIGITS[n]])[..|s|] == s;
  }

  lemma {:induction false} NumeralReads(n: nat)
    ensures Digits(Numeral(n)) && Number(Numeral(n)) == n
    ensures Numeral(n)[0] == '0' <==> n == 0
  {
    hide Number, Digits;
    if n < 10 {
      EmptyReads();
      DigitAppended("", n);
      DigitReads(n);
      assert "" + [DIGITS[n]] == Numeral(n);
    } else {
      NumeralReads(n / 10);
      DigitAppended(Numeral(n / 10), n % 10);
    }
  }

  lemma EmptyReads()
    ensures Digits("") && Number("") == 0
  {
  }

  lemma {:induction false} LastDigitsRead(n: nat, width: nat)
    requires n < Pow10(width)
    ensures Digits(LastDigits(n, width)) && Number(LastDigits(n, width)) == n
  {
    hide Number, Digits;
    if width == 0 {
      EmptyReads();
    } else {
      LastDigitsRead(n / 10, width - 1);
      DigitAppended(LastDigits(n / 10, width - 1), n % 10);
    }
  }

  /** A digit string without a leading zero is the numeral of its number. */
  lemma {:induction false} NumeralIsUnique(s: string)
    requires Digits(s) && s != "" && (s == "0" || s[0] != '0')
    ensures s == Numeral(Number(s))
  {
    hide Number, IsDigit, DigitValue;
    var init, last := s[..|s| - 1], s[|s| - 1];
    LastDigitReads(s);
    DigitWritten(last);
    assert s == init + [last];
    EmptyReads();
    if init != "" {
      assert init[0] == s[0];
      LeadingDigitCounts(init);
      NumeralIsUnique(init);
      Shifted(Number(init), DigitValue(last));
    }
  }

  lemma LastDigitReads(s: string)
    requires Digits(s) && s != ""
    ensures Digits(s[..|s| - 1]) && Number(s) == 10 * Number(s[..|s| - 1]) + DigitValue(s[|s| - 1])
  {
  }

  lemma Shifted(x: nat, y: nat)
    requires y < 10
    ensures (10 * x + y) / 10 == x && (10 * x + y) % 10 == y
  {
  }

  lemma DigitWritten(c: char)
    requires IsDigit(c)
    ensures DigitValue(c) < 10 && DIGITS[DigitValue(c)] == c
  {
  }

  // ---- What comes out ----

  /** What comes out is the numeral of the scaled magnitude, with a minus sign for a
      negative value other than zero. */
  lemma DropsAreNumerals(d: Decimal)
    requires WellFormed(d)
    ensures Drops(d) == (if d.neg && Scaled(d) != 0 then "-" else "") + Numeral(Scaled(d))
  {
    hide TrimZeros, PadZeros, Scaled, Number;
    PaddedNumber(d);
    var all := (if d.whole == "" then "0" else d.whole) + PadZeros(d.frac, 6 - |d.frac|);
    TrimZerosNumber(all);
    var t := TrimZeros(all);
    NumeralIsUnique(t);
    assert "" + t == t;
  }

  /** A number of units and millionths, written out in full, becomes the numeral of
      its drops; for 12 and 345 000 millionths, 12345000. */
  lemma WrittenOut(neg: bool, units: nat, millionths: nat)
    requires millionths < 1_000_000
    ensures var d := Decimal(neg, Numeral(units), LastDigits(millionths, 6));
            var drops := 1_000_000 * units + millionths;
            && Spells((if neg then "-" else "") + Numeral(units) + "." + LastDigits(millionths, 6), d)
            && Drops(d) == (if neg && drops != 0 then "-" else "") + Numeral(drops)
  {
    hide Number, Numeral, LastDigits, Digits;
    var d := Decimal(neg, Numeral(units), LastDigits(millionths, 6));
    Million();
    NumeralReads(units);
    LastDigitsRead(millionths, 6);
    assert Pow10(0) == 1;
    DropsAreNumerals(d);
    LongEnough(neg, Numeral(units), LastDigits(millionths, 6));
  }

  lemma LongEnough(neg: bool, whole: string, frac: string)
    requires |frac| == 6
    ensures (if neg then "-" else "") + whole + "." + frac != if neg then "-" else ""
  {
    assert |(if neg then "-" else "") + whole + "." + frac| > 6;
  }

  // ---- What goes in ----

  /** After the sign: not empty, digits and at most one point, and at most six
      digits after it. */
  ghost predicate LooksDecimal(s: string) {
    && s != ""
    && (forall i :: 0 <= i < |s| ==> s[i] in "0123456789.")
    && (forall i, j :: 0 <= i < j < |s| ==> s[i] != '.' || s[j] != '.')
    && (forall i :: 0 <= i < |s| && s[i] == '.' ==> |s| - i - 1 <= 6)
  }

  lemma DigitsAre()
    ensures forall c :: IsDigit(c) <==> c in "0123456789." && c != '.'
  {
  }

  /** Apart from "-1", the strings taken are exactly those. */
  lemma AcceptedStrings(value: string)
    ensures (exists d :: Spells(value, d)) <==>
              LooksDecimal(if value != "" && value[0] == '-' then value[1..] else value)
  {
    hide Spells, LooksDecimal, Reading, WellFormed;
    AcceptedIff(value);
    ReadingLooks(value);
  }

  lemma ReadingLooks(value: string)
    ensures WellFormed(Reading(value)) && value != Sign(Reading(value)) <==>
              LooksDecimal(if value != "" && value[0] == '-' then value[1..] else value)
  {
    hide FirstDot, Digits, LooksDecimal;
    var neg := value != "" && value[0] == '-';
    var s := if neg then value[1..] else value;
    FirstDotIs(s);
    SplitLooks(s, FirstDot(s));
    assert value == (if neg then "-" else "") + s;
    assert value == (if neg then "-" else "") <==> s == "";
    assert FirstDot(s) == |s| ==> s[..FirstDot(s)] == s;
    NoDigits();
  }

  lemma NoDigits()
    ensures Digits("")
  {
  }

  lemma SplitLooks(s: string, dot: nat)
    requires dot <= |s| && (forall i :: 0 <= i < dot ==> s[i] != '.') && (dot < |s| ==> s[dot] == '.')
    ensures LooksDecimal(s) <==>
              && s != "" && Digits(s[..dot])
              && (dot < |s| ==> Digits(s[dot + 1..]) && |s[dot + 1..]| <= 6)
  {
    hide IsDigit;
    DigitsAre();
    if LooksDecimal(s) {
      assert forall i :: 0 <= i < dot ==> s[..dot][i] == s[i];
      if dot < |s| {
        var frac := s[dot + 1..];
        assert forall i :: 0 <= i < |frac| ==> frac[i] == s[dot + 1 + i];
      }
    }
    if s != "" && Digits(s[..dot]) && (dot < |s| ==> Digits(s[dot + 1..]) && |s[dot + 1..]| <= 6) {
      forall i | 0 <= i < |s|
        ensures s[i] in "0123456789." && (s[i] == '.' <==> i == dot)
      {
        if i < dot {
          assert s[..dot][i] == s[i];
        } else if i > dot {
          assert s[dot + 1..][i - dot - 1] == s[i];
        }
      }
    }
  }
}
