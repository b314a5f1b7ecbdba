// xahValueToDrops: a decimal string of native units to an integer string of
// drops, exactly, whatever its length.

module NativeAmounts {
  import opened Prelude

  predicate IsDigit(c: char) {
    '0' <= c <= '9'
  }

  predicate Digits(s: string) {
    forall i :: 0 <= i < |s| ==> IsDigit(s[i])
  }

  function DigitValue(c: char): nat
    requires IsDigit(c)
  {
    (c - '0') as nat
  }

  /** The number a digit string denotes; the empty string denotes zero. */
  function Number(s: string): nat
    requires Digits(s)
  {
    if s == "" then 0 else 10 * Number(s[..|s| - 1]) + DigitValue(s[|s| - 1])
  }

  function Pow10(n: nat): (p: nat)
    ensures p > 0
  {
    if n == 0 then 1 else 10 * Pow10(n - 1)
  }

  /** A value as written: [-] whole [. frac]. */
  datatype Decimal = Decimal(neg: bool, whole: string, frac: string)

  function FirstDot(s: string): nat {
    if s == "" || s[0] == '.' then 0 else 1 + FirstDot(s[1..])
  }

  lemma {:induction false} FirstDotIs(s: string)
    ensures FirstDot(s) <= |s|
    ensures forall i :: 0 <= i < FirstDot(s) ==> s[i] != '.'
    ensures FirstDot(s) < |s| ==> s[FirstDot(s)] == '.'
  {
    if s == "" || s[0] == '.' {
    } else {
      FirstDotIs(s[1..]);
    }
  }

  /** The decimal a string spells, if it spells one: not empty after its sign,
      digits only, at most six after the point. */
  ghost predicate Spells(s: string, d: Decimal) {
    && Digits(d.whole) && Digits(d.frac) && |d.frac| <= 6
    && s != (if d.neg then "-" else "")
    && (s == Spelled(d) || (d.frac == "" && s == Sign(d) + d.whole))
  }

  function Sign(d: Decimal): string {
    if d.neg then "-" else ""
  }

  function Spelled(d: Decimal): string {
    Sign(d) + d.whole + "." + d.frac
  }

  function Scaled(d: Decimal): nat
    requires Digits(d.whole) && Digits(d.frac) && |d.frac| <= 6
  {
    Number(d.whole) * Pow10(6) + Number(d.frac) * Pow10(6 - |d.frac|)
  }

  /** The value of a decimal, as a real number. */
  ghost function DecimalValue(d: Decimal): real
    requires Digits(d.whole) && Digits(d.frac)
  {
    var magnitude := Number(d.whole) as real + Number(d.frac) as real / Pow10(|d.frac|) as real;
    if d.neg then -magnitude else magnitude
  }

  /** Canonical integers: no leading zero, no plus, no minus zero. */
  predicate Canonical(s: string) {
    || s == "0"
    || (s != "" && Digits(s) && s[0] != '0')
    || (|s| > 1 && s[0] == '-' && Digits(s[1..]) && s[1] != '0')
  }

  function IntegerValue(s: string): int
    requires Canonical(s)
  {
    if s[0] == '-' then -(Number(s[1..]) as int) else Number(s)
  }

  /** s.substr(find_first_not_of('0')), or "0". */
  function TrimZeros(s: string): string {
    if s == "" then "0" else if s[0] == '0' then TrimZeros(s[1..]) else s
  }

  function PadZeros(s: string, n: nat): string {
    if n == 0 then s else PadZeros(s, n - 1) + "0"
  }

  function Drops(d: Decimal): string
    requires |d.frac| <= 6
  {
    var trimmed := TrimZeros((if d.whole == "" then "0" else d.whole) + PadZeros(d.frac, 6 - |d.frac|));
    if d.neg && trimmed != "0" then "-" + trimmed else trimmed
  }

  /** The only reading there can be: sign, then up to the first dot, then the rest. */
  function Reading(value: string): Decimal {
    var neg := value != "" && value[0] == '-';
    var s := if neg then value[1..] else value;
    var dot := FirstDot(s);
    FirstDotIs(s);
    if dot == |s| then Decimal(neg, s, "") else Decimal(neg, s[..dot], s[dot + 1..])
  }

  predicate WellFormed(d: Decimal) {
    Digits(d.whole) && Digits(d.frac) && |d.frac| <= 6
  }

  /** Some(drops) exactly where xahValueToDrops returns true. */
  method XahValueToDrops(value: string) returns (drops: Option<string>)
    ensures drops.Some? <==> value == "-1" || exists d :: Spells(value, d)
    ensures value == "-1" ==> drops == Some("-1")
    ensures drops.Some? && value != "-1" ==> exists d :: Spells(value, d) && drops.value == Drops(d)
  {
    hide TrimZeros, PadZeros, Spells, Digits, FirstDot;
    if value == "-1" {
      return Some("-1");
    }
    var s := value;
    var neg := false;
    if s != "" && s[0] == '-' {
      neg := true;
      s := s[1..];
    }
    AcceptedIff(value);
    if s == "" {
      return None;
    }
    var dot := FirstDot(s);
    FirstDotIs(s);
    var whole := s[..dot];
    var frac := if dot == |s| then "" else s[dot + 1..];
    assert whole == if dot == |s| then s else s[..dot];
    assert Decimal(neg, whole, frac) == Reading(value);
    if |frac| > 6 || !Digits(whole) || !Digits(frac) {
      return None;
    }
    var result := PadAndTrim(neg, whole, frac);
    assert Spells(value, Reading(value)) && result == Drops(Reading(value));
    return Some(result);
  }

  /** The tail of xahValueToDrops, after its checks. */
  method PadAndTrim(neg: bool, whole: string, frac: string) returns (drops: string)
    requires |frac| <= 6
    ensures drops == Drops(Decimal(neg, whole, frac))
  {
    var padded := frac;
    while |padded| < 6
      invariant |frac| <= |padded| <= 6 && padded == PadZeros(frac, |padded| - |frac|)
    {
      padded := padded + "0";
    }
    var all := (if whole == "" then "0" else whole) + padded;
    var i := 0;
    while i < |all| && all[i] == '0'
      invariant i <= |all| && TrimZeros(all) == TrimZeros(all[i..])
    {
      assert all[i..][1..] == all[i + 1..];
      i := i + 1;
    }
    drops := if i == |all| then "0" else all[i..];
    if neg && drops != "0" {
      drops := "-" + drops;
    }
  }

  lemma AcceptedIff(value: string)
    ensures (exists d :: Spells(value, d)) <==> Spells(value, Reading(value))
    ensures Spells(value, Reading(value)) <==>
              WellFormed(Reading(value)) && value != Sign(Reading(value))
  {
    hide Spells;
    ReadingSpells(value);
    if d :| Spells(value, d) {
      ReadingIsUnique(value, d);
    }
  }

  lemma ReadingSpells(value: string)
    ensures Spells(value, Reading(value)) <==>
              WellFormed(Reading(value)) && value != Sign(Reading(value))
  {
    hide Digits, Reading, Spelled;
    ReadingRecombines(value);
  }

  lemma ReadingRecombines(value: string)
    ensures var e := Reading(value);
            value == Spelled(e) || (e.frac == "" && value == Sign(e) + e.whole)
  {
    hide FirstDot;
    var neg := value != "" && value[0] == '-';
    var s := if neg then value[1..] else value;
    FirstDotIs(s);
    assert value == (if neg then "-" else "") + s;
    SplitAt(s, FirstDot(s));
    if FirstDot(s) < |s| {
      Rejoin(if neg then "-" else "", s[..FirstDot(s)], s[FirstDot(s) + 1..]);
    }
  }

  lemma SplitAt(s: string, dot: nat)
    requires dot <= |s| && (dot < |s| ==> s[dot] == '.')
    ensures dot < |s| ==> s == s[..dot] + ("." + s[dot + 1..])
  {
  }

  lemma Rejoin(sign: string, whole: string, frac: string)
    ensures sign + whole + "." + frac == sign + (whole + ("." + frac))
  {
  }

  /** Sign, whole and fraction are the only way to read the string. */
  lemma ReadingIsUnique(value: string, d: Decimal)
    requires Spells(value, d)
    ensures d == Reading(value)
  {
    SignIsFirst(value, d);
    UnsignedIsUnique(value, d);
  }

  lemma UnsignedIsUnique(value: string, d: Decimal)
    requires Spells(value, d) && d.neg == (value != "" && value[0] == '-')
    ensures d == Reading(value)
  {
    hide Digits, FirstDot;
    var s := if d.neg then value[1..] else value;
    FirstDotIs(s);
    if value == Spelled(d) {
      Rejoin(Sign(d), d.whole, d.frac);
      assert s == d.whole + ("." + d.frac);
      DotAfterDigits(d.whole, d.frac);
    } else {
      assert s == d.whole;
      NoDot(d.whole);
    }
  }

  lemma SignIsFirst(value: string, d: Decimal)
    requires Spells(value, d)
    ensures d.neg == (value != "" && value[0] == '-')
  {
    if !d.neg && value != "" {
      if d.whole == "" {
        assert value[0] == '.';
      } else {
        assert value[0] == d.whole[0];
      }
    }
  }

  lemma {:induction false} DotAfterDigits(whole: string, frac: string)
    requires Digits(whole)
    ensures FirstDot(whole + ("." + frac)) == |whole|
  {
    var s := whole + ("." + frac);
    if whole == "" {
    } else {
      assert s[1..] == whole[1..] + ("." + frac);
      DotAfterDigits(whole[1..], frac);
    }
  }

  lemma {:induction false} NoDot(whole: string)
    requires Digits(whole)
    ensures FirstDot(whole) == |whole|
  {
    if whole == "" {
    } else {
      NoDot(whole[1..]);
    }
  }

  // ---- Exactness ----

  lemma {:induction false} NumberConcat(a: string, b: string)
    requires Digits(a) && Digits(b)
    ensures Number(a + b) == Number(a) * Pow10(|b|) + Number(b)
  {
    if b == "" {
      assert a + b == a;
    } else {
      var init, last := b[..|b| - 1], b[|b| - 1];
      NumberConcat(a, init);
      assert (a + b)[..|a + b| - 1] == a + init;
      assert Number(a + b) == 10 * Number(a + init) + DigitValue(last);
      TenTimes(Number(a), Pow10(|init|), Number(init));
    }
  }

  lemma TenTimes(x: nat, p: nat, y: nat)
    ensures 10 * (x * p + y) == x * (10 * p) + 10 * y
  {
  }

  lemma {:induction false} PadZerosNumber(s: string, n: nat)
    requires Digits(s)
    ensures Digits(PadZeros(s, n)) && |PadZeros(s, n)| == |s| + n
    ensures Number(PadZeros(s, n)) == Number(s) * Pow10(n)
  {
    hide Number, Digits;
    if n == 0 {
    } else {
      PadZerosNumber(s, n - 1);
      AppendZero(PadZeros(s, n - 1));
      TenTimes(Number(s), Pow10(n - 1), 0);
    }
  }

  lemma AppendZero(p: string)
    requires Digits(p)
    ensures Digits(p + "0") && Number(p + "0") == 10 * Number(p)
  {
    assert (p + "0")[..|p|] == p;
  }

  lemma {:induction false} TrimZerosNumber(s: string)
    requires Digits(s)
    ensures Canonical(TrimZeros(s)) && Digits(TrimZeros(s)) && Number(TrimZeros(s)) == Number(s)
    ensures TrimZeros(s) == "0" <==> Number(s) == 0
  {
    if s == "" {
      assert Number("0") == 0 by { assert "0"[..0] == ""; }
    } else if s[0] == '0' {
      TrimZerosNumber(s[1..]);
      assert s == [s[0]] + s[1..];
      NumberConcat([s[0]], s[1..]);
      assert Number([s[0]]) == 0 by { assert [s[0]][..0] == ""; }
    } else {
      LeadingDigitCounts(s);
    }
  }

  lemma LeadingDigitCounts(s: string)
    requires Digits(s) && s != "" && s[0] != '0'
    ensures Number(s) > 0
  {
    assert s == [s[0]] + s[1..];
    NumberConcat([s[0]], s[1..]);
    assert Number([s[0]]) == DigitValue(s[0]) by { assert [s[0]][..0] == ""; }
    assert DigitValue(s[0]) * Pow10(|s[1..]|) > 0;
  }

  lemma {:induction false} Pow10Split(n: nat, m: nat)
    ensures Pow10(n + m) == Pow10(n) * Pow10(m)
  {
    if n == 0 {
    } else {
      Pow10Split(n - 1, m);
      assert Pow10(n + m) == 10 * Pow10(n - 1 + m);
      assert 10 * (Pow10(n - 1) * Pow10(m)) == (10 * Pow10(n - 1)) * Pow10(m);
    }
  }

  lemma ZeroReads()
    ensures Digits("0") && Digits("") && Number("0") == Number("") == 0
  {
    assert "0"[..0] == "";
  }

  lemma DigitsJoin(a: string, b: string)
    requires Digits(a) && Digits(b)
    ensures Digits(a + b)
  {
  }

  /** The digits before trimming denote the scaled magnitude. */
  lemma PaddedNumber(d: Decimal)
    requires Digits(d.whole) && Digits(d.frac) && |d.frac| <= 6
    ensures var all := (if d.whole == "" then "0" else d.whole) + PadZeros(d.frac, 6 - |d.frac|);
            Digits(all) && Number(all) == Scaled(d)
  {
    hide Number, Pow10, Digits, PadZeros;
    var whole := if d.whole == "" then "0" else d.whole;
    ZeroReads();
    PadZerosNumber(d.frac, 6 - |d.frac|);
    DigitsJoin(whole, PadZeros(d.frac, 6 - |d.frac|));
    NumberConcat(whole, PadZeros(d.frac, 6 - |d.frac|));
  }

  /** Scaling by a million is exact. */
  lemma ScaledIsMillionTimes(d: Decimal)
    requires Digits(d.whole) && Digits(d.frac) && |d.frac| <= 6
    ensures (if d.neg then -(Scaled(d) as real) else Scaled(d) as real) == 1_000_000.0 * DecimalValue(d)
  {
    Pow10Split(|d.frac|, 6 - |d.frac|);
    assert Pow10(6) == 1_000_000 by { Million(); }
    ScaledFraction(Number(d.frac), Pow10(|d.frac|), Pow10(6 - |d.frac|));
    assert Scaled(d) as real == (Number(d.whole) * 1_000_000) as real + (Number(d.frac) * Pow10(6 - |d.frac|)) as real;
    assert (Number(d.whole) * 1_000_000) as real == Number(d.whole) as real * 1_000_000.0;
  }

  lemma Million()
    ensures Pow10(6) == 1_000_000
  {
    assert Pow10(3) == 1000;
    assert Pow10(6) == 1000 * Pow10(3);
  }

  lemma ScaledFraction(n: nat, p: nat, q: nat)
    requires p > 0 && p * q == 1_000_000
    ensures (n * q) as real == 1_000_000.0 * (n as real / p as real)
  {
    assert (p * q) as real == p as real * q as real;
    assert (n * q) as real == n as real * q as real;
    assert 1_000_000.0 * (n as real / p as real) == (p as real * q as real) * (n as real / p as real);
    assert (p as real * q as real) * (n as real / p as real) == q as real * (p as real * (n as real / p as real));
    assert p as real * (n as real / p as real) == n as real;
  }

  /** Every accepted string other than "-1" becomes the canonical integer equal
      to a million times its value. */
  lemma DropsAreExact(value: string, d: Decimal)
    requires Spells(value, d)
    ensures Canonical(Drops(d)) && IntegerValue(Drops(d)) as real == 1_000_000.0 * DecimalValue(d)
  {
    ScaledIsMillionTimes(d);
    DropsAreScaled(d);
  }

  lemma DropsAreScaled(d: Decimal)
    requires WellFormed(d)
    ensures Canonical(Drops(d)) && IntegerValue(Drops(d)) == if d.neg then -(Scaled(d) as int) else Scaled(d)
  {
    hide TrimZeros, PadZeros, Scaled;
    PaddedNumber(d);
    var all := (if d.whole == "" then "0" else d.whole) + PadZeros(d.frac, 6 - |d.frac|);
    TrimZerosNumber(all);
    SignedValue(TrimZeros(all), d.neg);
  }

  lemma SignedValue(t: string, neg: bool)
    requires Digits(t) && Canonical(t) && (t == "0" <==> Number(t) == 0)
    ensures var s := if neg && t != "0" then "-" + t else t;
            Canonical(s) && IntegerValue(s) == if neg then -(Number(t) as int) else Number(t)
  {
    assert ("-" + t)[1..] == t;
  }

  /** The convert-all output comes only from "-1" itself or from -0.000001. */
  lemma MinusOneDrop(value: string, d: Decimal)
    requires Spells(value, d)
    ensures Drops(d) == "-1" <==> DecimalValue(d) == -0.000001
  {
    DropsAreExact(value, d);
    assert Number("1") == 1 by { assert "1"[..0] == ""; }
    assert "-1"[1..] == "1";
    if IntegerValue(Drops(d)) == -1 {
      CanonicalMinusOne(Drops(d));
    }
  }

  lemma CanonicalMinusOne(s: string)
    requires Canonical(s) && IntegerValue(s) == -1
    ensures s == "-1"
  {
    var t := s[1..];
    assert Number(t) == 1;
    var init := t[..|t| - 1];
    assert 10 * Number(init) + DigitValue(t[|t| - 1]) == 1;
    if init != "" {
      assert init[0] == t[0];
      LeadingDigitCounts(init);
    }
    assert t == [t[0]] && t[0] == '1';
    assert s == [s[0]] + t;
  }
}
