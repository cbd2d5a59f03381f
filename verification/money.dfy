/** Exact conversion between major-unit decimal strings and minor-unit integers. */
module Money {
  import opened Decimal

  const LEDGER_MAX_MINOR: nat := 0xFFFF_FFFF_FFFF_FFFF_FFFF_FFFF_FFFF_FFFF

  datatype Reason = InvalidFormat | FractionalPrecision | InvalidExponent | Overflow

  datatype Amount = Exact(value: string) | Invalid(reason: Reason)

  /** The two groups of the pattern `(\d+)(?:\.(\d+))?`; a missing second group is empty. */
  datatype DecimalMatch = NoMatch | Match(whole: string, fraction: string)

  predicate ValidExponent(exponent: int) {
    0 <= exponent <= 38
  }

  function DigitPrefix(s: string): (n: nat)
    ensures n <= |s| && AllDigits(s[..n])
    ensures forall i :: 0 <= i < n ==> IsDigit(s[i])
    ensures n < |s| ==> !IsDigit(s[n])
  {
    if s == "" || !IsDigit(s[0]) then 0 else
      var n := DigitPrefix(s[1..]);
      assert forall i :: 0 < i < n + 1 ==> s[i] == s[1..][i - 1];
      1 + n
  }

  function MatchDecimal(s: string): (m: DecimalMatch)
    ensures m.Match? ==> IsReading(s, m.whole, m.fraction)
  {
    var n := DigitPrefix(s);
    if n == 0 then NoMatch
    else if n == |s| then
      assert s[..n] == s;
      Match(s, "")
    else if s[n] == '.' && n + 1 < |s| && AllDigits(s[n + 1..]) then
      assert s == s[..n] + "." + s[n + 1..];
      Match(s[..n], s[n + 1..])
    else NoMatch
  }

  /** `s` is written with integer digits `whole` and fractional digits `fraction`. */
  predicate IsReading(s: string, whole: string, fraction: string) {
    && AllDigits(whole) && AllDigits(fraction) && whole != ""
    && s == if fraction == "" then whole else whole + "." + fraction
  }

  ghost predicate IsDecimal(s: string) {
    exists whole, fraction :: IsReading(s, whole, fraction)
  }

  function StripZeros(s: string): (r: string)
    ensures |r| <= |s| && s == r + Zeros(|s| - |r|)
    ensures AllDigits(s) ==> AllDigits(r)
    ensures r != "" ==> r[|r| - 1] != '0'
  {
    if s != "" && s[|s| - 1] == '0' then
      var r := StripZeros(s[..|s| - 1]);
      assert Zeros(|s| - |r|) == Zeros(|s| - 1 - |r|) + "0";
      r
    else s
  }

  function PadEnd(s: string, n: nat): (r: string)
    ensures |r| >= n && (AllDigits(s) ==> AllDigits(r))
  {
    if |s| >= n then s else s + Zeros(n - |s|)
  }

  function PadStart(s: string, n: nat): (r: string)
    ensures |r| >= n && (AllDigits(s) ==> AllDigits(r))
  {
    if |s| >= n then s else Zeros(n - |s|) + s
  }

  function ScaleAdd(whole: nat, scale: nat, fraction: nat): nat {
    assert 0 <= whole * scale;
    whole * scale + fraction
  }

  /** The minor amount read off the digits, once the fraction is known to fit the exponent. */
  function ReadOff(whole: string, fraction: string, exponent: nat): nat
    requires AllDigits(whole) && AllDigits(fraction)
  {
    var padded := PadEnd(fraction, exponent);
    ScaleAdd(Value(whole), Pow10(exponent), Value(if padded == "" then "0" else padded))
  }

  function MajorToMinor(value: string, exponent: int): Amount {
    if !ValidExponent(exponent) then Invalid(InvalidExponent) else
    match MatchDecimal(value)
    case NoMatch => Invalid(InvalidFormat)
    case Match(whole, group) =>
      var fraction := StripZeros(group);
      if |fraction| > exponent then Invalid(FractionalPrecision) else
        var minor := ReadOff(whole, fraction, exponent);
        if minor > LEDGER_MAX_MINOR then Invalid(Overflow) else Exact(Print(minor))
  }

  function MinorToMajor(value: string, exponent: int): Amount {
    if !ValidExponent(exponent) then Invalid(InvalidExponent)
    else if !IsCanonical(value) then Invalid(InvalidFormat)
    else
      var minor := Value(value);
      if minor > LEDGER_MAX_MINOR then Invalid(Overflow)
      else if exponent == 0 then Exact(Print(minor))
      else
        var digits := PadStart(Print(minor), exponent + 1);
        var point := |digits| - exponent;
        Exact(digits[..point] + "." + digits[point..])
  }

  /**
   * `value * 10^exponent` is the integer `minor`: the decimal with digits `whole` and `fraction`
   * is `Value(whole + fraction) / 10^|fraction|`, stated here without division.
   */
  ghost predicate Denotes(value: string, exponent: nat, minor: nat) {
    exists whole, fraction :: IsReading(value, whole, fraction) && Scales(whole, fraction, exponent, minor)
  }

  ghost predicate Scales(whole: string, fraction: string, exponent: nat, minor: nat)
    requires AllDigits(whole) && AllDigits(fraction)
  {
    minor * Pow10(|fraction|) == Value(whole + fraction) * Pow10(exponent)
  }

  /** A string has at most one reading. */
  lemma ReadingUnique(s: string, w1: string, f1: string, w2: string, f2: string)
    requires IsReading(s, w1, f1) && IsReading(s, w2, f2)
    ensures w1 == w2 && f1 == f2
  {
    assert f1 != "" ==> s[|w1|] == '.' && forall i :: |w1| < i < |s| ==> s[i] == f1[i - |w1| - 1];
    assert f2 != "" ==> s[|w2|] == '.' && forall i :: |w2| < i < |s| ==> s[i] == f2[i - |w2| - 1];
    assert forall i :: 0 <= i < |w1| ==> s[i] == w1[i];
    assert forall i :: 0 <= i < |w2| ==> s[i] == w2[i];
    assert w1 == s[..|w1|] && w2 == s[..|w2|];
    if f1 != "" && f2 != "" {
      assert f1 == s[|w1| + 1..] && f2 == s[|w2| + 1..];
    }
  }

  lemma MatchComplete(s: string, whole: string, fraction: string)
    requires IsReading(s, whole, fraction)
    ensures MatchDecimal(s) == Match(whole, fraction)
  {
    var n := DigitPrefix(s);
    assert forall i :: 0 <= i < |whole| ==> s[i] == whole[i];
    if fraction != "" {
      assert s[|whole|] == '.';
      assert s[|whole| + 1..] == fraction;
    }
    assert n == |whole|;
    assert s[..n] == whole;
  }

  lemma CancelFactor(a: int, b: int, q: nat)
    requires q >= 1
    ensures a * q == b * q <==> a == b
  {
    if a < b {
      assert (b - a) * q >= 1;
    } else if b < a {
      assert (a - b) * q >= 1;
    }
  }

  lemma CancelScale(minor: int, p: int, v: int, e: int, q: int)
    requires q >= 1
    ensures minor * (p * q) == (v * q) * e <==> minor * p == v * e
  {
    assert minor * (p * q) == (minor * p) * q;
    assert (v * q) * e == (v * e) * q;
    CancelFactor(minor * p, v * e, q);
  }

  lemma CancelShort(minor: int, w: int, f: int, p: int, q: int)
    requires p >= 1
    ensures minor * p == (w * p + f) * (p * q) <==> minor == w * (p * q) + f * q
  {
    var target := w * (p * q) + f * q;
    assert target == (w * p + f) * q by {
      assert w * (p * q) == (w * p) * q;
    }
    assert (w * p + f) * (p * q) == ((w * p + f) * q) * p;
    CancelFactor(minor, target, p);
  }

  lemma CancelLong(minor: int, p: int, v: int, e: int)
    requires e >= 1 && minor * (p * e) == v * e
    ensures v == minor * p
  {
    assert minor * (p * e) == (minor * p) * e;
    CancelFactor(minor * p, v, e);
  }

  /** Trailing fractional zeros do not change what a decimal denotes. */
  lemma StripKeepsScale(whole: string, long: string, fraction: string, zeros: nat, exponent: nat, minor: nat)
    requires AllDigits(whole) && AllDigits(fraction) && AllDigits(long)
    requires long == fraction + Zeros(zeros)
    ensures Scales(whole, long, exponent, minor) <==> Scales(whole, fraction, exponent, minor)
  {
    var v: int, p: int, q: int := Value(whole + fraction), Pow10(|fraction|), Pow10(zeros);
    assert Value(whole + long) == v * q by {
      assert whole + long == (whole + fraction) + Zeros(zeros);
      ValueTrailingZeros(whole + fraction, zeros);
    }
    assert Pow10(|long|) == p * q by { Pow10Sum(|fraction|, zeros); }
    CancelScale(minor, p, v, Pow10(exponent), q);
  }

  /** When the significant fraction fits the exponent, the scaled value is the one read off the digits. */
  lemma ShortFractionScales(whole: string, fraction: string, exponent: nat, minor: nat)
    requires AllDigits(whole) && AllDigits(fraction) && |fraction| <= exponent
    ensures Scales(whole, fraction, exponent, minor) <==> minor == ReadOff(whole, fraction, exponent)
  {
    assert Value("0") == 0 == Value("") by { assert "0"[..0] == ""; }
    assert PadEnd(fraction, exponent) == fraction + Zeros(exponent - |fraction|);
    var pad := exponent - |fraction|;
    var w: int, f: int, p: int, q: int := Value(whole), Value(fraction), Pow10(|fraction|), Pow10(pad);
    assert Value(whole + fraction) == w * p + f by { ValueConcat(whole, fraction); }
    assert Value(fraction + Zeros(pad)) == f * q by { ValueTrailingZeros(fraction, pad); }
    assert Pow10(exponent) == p * q by { Pow10Sum(|fraction|, pad); }
    CancelShort(minor, w, f, p, q);
  }

  /** A significant fraction longer than the exponent leaves no integer: its last digit is not zero. */
  lemma LongFractionDoesNotScale(whole: string, fraction: string, exponent: nat, minor: nat)
    requires AllDigits(whole) && AllDigits(fraction) && |fraction| > exponent
    requires fraction[|fraction| - 1] != '0'
    ensures !Scales(whole, fraction, exponent, minor)
  {
    var extra := |fraction| - exponent;
    Pow10Sum(extra, exponent);
    if Scales(whole, fraction, exponent, minor) {
      CancelLong(minor, Pow10(extra), Value(whole + fraction), Pow10(exponent));
      MultipleOfTen(minor, Pow10(extra - 1), Value(whole + fraction));
      LastDigit(whole + fraction);
      assert false;
    }
  }

  lemma MultipleOfTen(minor: int, p: int, v: int)
    requires v == minor * (10 * p)
    ensures v % 10 == 0
  {
    assert v == 10 * (minor * p);
  }

  lemma LastDigit(s: string)
    requires s != "" && AllDigits(s) && s[|s| - 1] != '0'
    ensures Value(s) % 10 != 0
  {
  }

  /** Every reading of a string decides its scaling by the significant fraction alone. */
  lemma ReadingScales(whole: string, fraction: string, exponent: nat, minor: nat)
    requires AllDigits(whole) && AllDigits(fraction)
    ensures Scales(whole, fraction, exponent, minor) <==>
            |StripZeros(fraction)| <= exponent && minor == ReadOff(whole, StripZeros(fraction), exponent)
  {
    var short := StripZeros(fraction);
    StripKeepsScale(whole, fraction, short, |fraction| - |short|, exponent, minor);
    if |short| <= exponent {
      ShortFractionScales(whole, short, exponent, minor);
    } else {
      LongFractionDoesNotScale(whole, short, exponent, minor);
    }
  }

  lemma DenotesByReading(value: string, whole: string, fraction: string, exponent: nat, minor: nat)
    requires IsReading(value, whole, fraction)
    ensures Denotes(value, exponent, minor) <==>
            |StripZeros(fraction)| <= exponent && minor == ReadOff(whole, StripZeros(fraction), exponent)
  {
    forall w, f | IsReading(value, w, f) ensures w == whole && f == fraction {
      ReadingUnique(value, w, f, whole, fraction);
    }
    ReadingScales(whole, fraction, exponent, minor);
  }

  /**
   * Exactness: on every string and every valid exponent the conversion succeeds exactly when the
   * string is a decimal whose value times 10^exponent is an integer within the ledger bound, and
   * then it prints that integer.
   */
  lemma MajorToMinorExact(value: string, exponent: int, minor: nat)
    requires ValidExponent(exponent)
    ensures MajorToMinor(value, exponent) == Exact(Print(minor)) <==>
            Denotes(value, exponent, minor) && minor <= LEDGER_MAX_MINOR
    ensures Denotes(value, exponent, minor) && minor > LEDGER_MAX_MINOR ==>
            MajorToMinor(value, exponent) == Invalid(Overflow)
  {
    if exists whole, fraction :: IsReading(value, whole, fraction) {
      var whole, fraction :| IsReading(value, whole, fraction);
      MatchComplete(value, whole, fraction);
      DenotesByReading(value, whole, fraction, exponent, minor);
      var found := ReadOff(whole, StripZeros(fraction), exponent);
      if Print(found) == Print(minor) {
        PrintInjective(found, minor);
      }
    }
  }

  /** The failure reason is itself exact: malformed text, or a decimal with no integer scaling. */
  lemma MajorToMinorFailure(value: string, exponent: int)
    requires ValidExponent(exponent)
    ensures MajorToMinor(value, exponent) == Invalid(InvalidFormat) <==> !IsDecimal(value)
    ensures MajorToMinor(value, exponent) == Invalid(FractionalPrecision) <==>
            IsDecimal(value) && forall minor: nat :: !Denotes(value, exponent, minor)
  {
    if IsDecimal(value) {
      var whole, fraction :| IsReading(value, whole, fraction);
      MatchComplete(value, whole, fraction);
      var short := StripZeros(fraction);
      forall minor: nat
        ensures Denotes(value, exponent, minor) <==>
                |short| <= exponent && minor == ReadOff(whole, short, exponent)
      {
        DenotesByReading(value, whole, fraction, exponent, minor);
      }
      if |short| <= exponent {
        assert Denotes(value, exponent, ReadOff(whole, short, exponent));
      }
    }
  }

  /** The printed major amount has exactly `exponent` fractional digits and the same digits otherwise. */
  lemma MajorReading(value: string, exponent: int) returns (whole: string, fraction: string)
    requires ValidExponent(exponent) && IsCanonical(value) && Value(value) <= LEDGER_MAX_MINOR
    ensures MinorToMajor(value, exponent).Exact?
    ensures IsReading(MinorToMajor(value, exponent).value, whole, fraction)
    ensures |fraction| == exponent && Value(whole + fraction) == Value(value)
  {
    assert Print(Value(value)) == value by { CanonicalIsPrinted(value); }
    if exponent == 0 {
      whole, fraction := value, "";
      assert whole + fraction == value;
    } else {
      var digits := PadStart(value, exponent + 1);
      assert Value(digits) == Value(value) by { PaddedValue(value, exponent + 1); }
      whole, fraction := digits[..|digits| - exponent], digits[|digits| - exponent..];
      PointReading(digits, exponent);
    }
  }

  lemma PointReading(digits: string, exponent: nat)
    requires AllDigits(digits) && 0 < exponent < |digits|
    ensures var whole, fraction := digits[..|digits| - exponent], digits[|digits| - exponent..];
            whole + fraction == digits && IsReading(whole + "." + fraction, whole, fraction)
  {
  }

  lemma PaddedValue(s: string, n: nat)
    requires AllDigits(s)
    ensures Value(PadStart(s, n)) == Value(s)
  {
    var zeros := Zeros(if |s| < n then n - |s| else 0);
    assert PadStart(s, n) == zeros + s;
    ValueLeadingZeros(s, |zeros|);
  }

  /** At the exponent given by its own fraction, a decimal denotes its digits read without the point. */
  lemma ReadingDenotes(value: string, whole: string, fraction: string)
    requires IsReading(value, whole, fraction)
    ensures Denotes(value, |fraction|, Value(whole + fraction))
  {
    assert Scales(whole, fraction, |fraction|, Value(whole + fraction));
  }

  /** Printing a canonical minor amount in major units and converting back gives the same amount. */
  lemma MinorRoundTrip(value: string, exponent: int)
    requires ValidExponent(exponent) && IsCanonical(value) && Value(value) <= LEDGER_MAX_MINOR
    ensures MinorToMajor(value, exponent).Exact?
    ensures MajorToMinor(MinorToMajor(value, exponent).value, exponent) == Exact(value)
  {
    var whole, fraction := MajorReading(value, exponent);
    var major := MinorToMajor(value, exponent).value;
    ReadingDenotes(major, whole, fraction);
    MajorToMinorExact(major, exponent, Value(value));
    CanonicalIsPrinted(value);
  }

  /** The public amount pattern `\d{1,18}(\.\d{1,2})?`. */
  ghost predicate IsMajorAmount(s: string) {
    exists whole, fraction :: IsReading(s, whole, fraction) && |whole| <= 18 && |fraction| <= 2
  }

  type MajorAmount = s: string | IsMajorAmount(s) witness ZeroAmount()

  function ZeroAmount(): (s: string)
    ensures IsMajorAmount(s)
  {
    assert IsReading("0", "0", "");
    "0"
  }

  /** Every public amount converts at exponent 2, so the throwing conversion never throws on one. */
  lemma MajorAmountConverts(s: string)
    requires IsMajorAmount(s)
    ensures MajorToMinor(s, 2).Exact?
  {
    var whole, fraction :| IsReading(s, whole, fraction) && |whole| <= 18 && |fraction| <= 2;
    MatchComplete(s, whole, fraction);
    ReadOffBound(whole, StripZeros(fraction));
  }

  lemma ReadOffBound(whole: string, fraction: string)
    requires AllDigits(whole) && AllDigits(fraction) && |whole| <= 18 && |fraction| <= 2
    ensures ReadOff(whole, fraction, 2) <= LEDGER_MAX_MINOR
  {
    var padded := PadEnd(fraction, 2);
    assert Pow10(2) == 100;
    assert Value(padded) < 100 by {
      ValueBound(padded);
    }
    assert Value(whole) < 1_000_000_000_000_000_000 by {
      ValueBound(whole);
      Pow10Monotone(|whole|, 18);
      Pow10Eighteen();
    }
  }

  lemma {:induction false} Pow10Monotone(a: nat, b: nat)
    requires a <= b
    ensures Pow10(a) <= Pow10(b)
  {
    if a < b {
      Pow10Monotone(a, b - 1);
    }
  }

  lemma Pow10Eighteen()
    ensures Pow10(18) == 1_000_000_000_000_000_000
  {
    assert Pow10(6) == 1_000_000;
    Pow10Sum(6, 6);
    Pow10Sum(12, 6);
  }

  /** The minor units of a public amount: what the throwing conversion returns. */
  function MinorOf(s: MajorAmount): nat
  {
    MajorAmountConverts(s);
    Value(MajorToMinor(s, 2).value)
  }

  /** It is the integer that the amount times 100 denotes. */
  lemma MinorOfDenotes(s: MajorAmount)
    ensures MajorToMinor(s, 2) == Exact(Print(MinorOf(s))) && Denotes(s, 2, MinorOf(s)) && MinorOf(s) <= LEDGER_MAX_MINOR
  {
    MajorAmountConverts(s);
    var whole, fraction :| IsReading(s, whole, fraction) && |whole| <= 18 && |fraction| <= 2;
    MatchComplete(s, whole, fraction);
    PrintDenotes(ReadOff(whole, StripZeros(fraction), 2));
    MajorToMinorExact(s, 2, MinorOf(s));
  }

  /** Written with a given number of fractional digits, an amount is its digits, scaled up to cents. */
  lemma MinorOfReading(s: MajorAmount, whole: string, fraction: string)
    requires IsReading(s, whole, fraction)
    ensures MinorOf(s) * Pow10(|fraction|) == Value(whole + fraction) * 100
  {
    MinorOfDenotes(s);
    var w, f :| IsReading(s, w, f) && Scales(w, f, 2, MinorOf(s));
    ReadingUnique(s, w, f, whole, fraction);
    assert Pow10(2) == 100;
  }

  lemma ZeroIsNothing()
    ensures MinorOf(ZeroAmount()) == 0
  {
    MinorOfReading(ZeroAmount(), "0", "");
    assert "0" + "" == "0" && "0"[..0] == "" && Value("0") == 0;
  }

  function Ten(): (s: MajorAmount)
    ensures s == "10"
  {
    assert IsReading("10", "10", "");
    "10"
  }

  function TenAndNoCents(): (s: MajorAmount)
    ensures s == "10.00"
  {
    assert IsReading("10.00", "10", "00");
    "10.00"
  }

  /** Two texts of one amount. */
  lemma TenIsTen()
    ensures MinorOf(Ten()) == 1000 == MinorOf(TenAndNoCents())
  {
    hide MinorOf, Value, Pow10;
    MinorOfReading(Ten(), "10", "");
    MinorOfReading(TenAndNoCents(), "10", "00");
    DigitsOfTen();
  }

  lemma DigitsOfTen()
    ensures Value("10" + "") == 10 && Value("10" + "00") == 1000 && Pow10(0) == 1 && Pow10(2) == 100
  {
    assert Value("1") == 1 by { assert "1"[..0] == ""; }
    assert Value("10") == 10 by { assert "10"[..1] == "1"; }
    assert "10" + "" == "10" && Zeros(2) == "00" && Pow10(2) == 100;
    hide Value;
    ValueTrailingZeros("10", 2);
  }

  // ---- Refusals, written out ----------------------------------------------

  /** The first amount that does not fit in 128 bits. */
  const TOO_LARGE: nat := 0x1_0000_0000_0000_0000_0000_0000_0000_0000

  /** Each refusal of an exponent, and every refusal of a minor amount, exactly on its condition. */
  lemma RefusalsExactly(value: string, exponent: int)
    ensures MajorToMinor(value, exponent) == Invalid(InvalidExponent) <==> exponent < 0 || exponent > 38
    ensures MinorToMajor(value, exponent) == Invalid(InvalidExponent) <==> exponent < 0 || exponent > 38
    ensures MinorToMajor(value, exponent) == Invalid(InvalidFormat) <==> 0 <= exponent <= 38 && !IsCanonical(value)
    ensures MinorToMajor(value, exponent) == Invalid(Overflow) <==>
            0 <= exponent <= 38 && IsCanonical(value) && Value(value) >= TOO_LARGE
    ensures MinorToMajor(value, exponent).Exact? <==> 0 <= exponent <= 38 && IsCanonical(value) && Value(value) < TOO_LARGE
  {
    hide MatchDecimal, ReadOff, StripZeros, PadStart, Print, Value;
  }

  /** A decimal converts exactly when its scaled value is an integer below 2^128, and overflows exactly when it is a larger integer. */
  lemma OverflowExactly(value: string, exponent: nat, minor: nat)
    requires exponent <= 38 && Denotes(value, exponent, minor)
    ensures MajorToMinor(value, exponent) == if minor < TOO_LARGE then Exact(Print(minor)) else Invalid(Overflow)
  {
    MajorToMinorExact(value, exponent, minor);
    hide MajorToMinor, Denotes, Print;
  }
}
