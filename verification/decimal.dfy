/** Decimal numerals: the digit strings that carry every amount through the system. */
module Decimal {

  predicate IsDigit(c: char) {
    '0' <= c <= '9'
  }

  predicate AllDigits(s: string) {
    forall i :: 0 <= i < |s| ==> IsDigit(s[i])
  }

  function DigitValue(c: char): nat
    requires IsDigit(c)
  {
    c as int - '0' as int
  }

  function DigitChar(d: nat): (c: char)
    requires d < 10
    ensures IsDigit(c) && DigitValue(c) == d
  {
    ('0' as int + d) as char
  }

  function Pow10(e: nat): (p: nat)
    ensures p >= 1
  {
    if e == 0 then 1 else 10 * Pow10(e - 1)
  }

  /** The number a digit string denotes; the empty string denotes zero. */
  function Value(s: string): nat
    requires AllDigits(s)
  {
    if s == "" then 0 else 10 * Value(s[..|s| - 1]) + DigitValue(s[|s| - 1])
  }

  /** The numeral that `BigInt.prototype.toString` prints. */
  function Print(n: nat): (s: string)
    ensures AllDigits(s) && s != ""
  {
    if n < 10 then [DigitChar(n)] else Print(n / 10) + [DigitChar(n % 10)]
  }

  /** Membership in the pattern `(0|[1-9]\d*)`. */
  predicate IsCanonical(s: string) {
    s != "" && AllDigits(s) && (s[0] == '0' ==> |s| == 1)
  }

  function Zeros(n: nat): (s: string)
    ensures |s| == n && AllDigits(s)
    ensures forall i :: 0 <= i < n ==> s[i] == '0'
  {
    seq(n, _ => '0')
  }

  lemma {:induction false} PrintDenotes(n: nat)
    ensures Value(Print(n)) == n && IsCanonical(Print(n))
    ensures n > 0 ==> Print(n)[0] != '0'
  {
    if n >= 10 {
      PrintDenotes(n / 10);
      var s := Print(n);
      assert s[..|s| - 1] == Print(n / 10);
    } else {
      assert Print(n)[..0] == "";
    }
  }

  lemma PrintInjective(m: nat, n: nat)
    requires Print(m) == Print(n)
    ensures m == n
  {
    PrintDenotes(m);
    PrintDenotes(n);
  }

  /** A canonical numeral is the printed form of the number it denotes. */
  lemma {:induction false} CanonicalIsPrinted(s: string)
    requires IsCanonical(s)
    ensures Print(Value(s)) == s
  {
    if |s| == 1 {
      assert s[..0] == "";
      assert [DigitChar(DigitValue(s[0]))] == s;
    } else {
      var t := s[..|s| - 1];
      CanonicalIsPrinted(t);
      NonzeroLead(t);
      assert Value(s) / 10 == Value(t);
      assert s == t + [s[|s| - 1]];
    }
  }

  lemma {:induction false} NonzeroLead(s: string)
    requires s != "" && AllDigits(s) && s[0] != '0'
    ensures Value(s) >= 1
  {
    if |s| > 1 {
      NonzeroLead(s[..|s| - 1]);
    }
  }

  lemma TenTimes(v: int, p: int)
    ensures v * (10 * p) == 10 * (v * p)
  {
  }

  lemma {:induction false} ValueConcat(a: string, b: string)
    requires AllDigits(a) && AllDigits(b)
    ensures AllDigits(a + b)
    ensures Value(a + b) == Value(a) * Pow10(|b|) + Value(b)
  {
    if b == "" {
      assert a + b == a;
    } else {
      var c := b[..|b| - 1];
      ValueConcat(a, c);
      assert (a + b)[..|a + b| - 1] == a + c;
      TenTimes(Value(a), Pow10(|c|));
    }
  }

  lemma {:induction false} ValueTrailingZeros(s: string, n: nat)
    requires AllDigits(s)
    ensures Value(s + Zeros(n)) == Value(s) * Pow10(n)
  {
    if n == 0 {
      assert s + Zeros(0) == s;
    } else {
      ValueTrailingZeros(s, n - 1);
      assert (s + Zeros(n))[..|s| + n - 1] == s + Zeros(n - 1);
      TenTimes(Value(s), Pow10(n - 1));
    }
  }

  lemma {:induction false} ValueLeadingZeros(s: string, n: nat)
    requires AllDigits(s)
    ensures Value(Zeros(n) + s) == Value(s)
  {
    var t := Zeros(n) + s;
    if t != "" {
      if s == "" {
        ValueLeadingZeros(s, n - 1);
        assert t[..n - 1] == Zeros(n - 1) + s;
      } else {
        ValueLeadingZeros(s[..|s| - 1], n);
        assert t[..|t| - 1] == Zeros(n) + s[..|s| - 1];
      }
    }
  }

  lemma {:induction false} ValueBound(s: string)
    requires AllDigits(s)
    ensures Value(s) < Pow10(|s|)
  {
    if s != "" {
      ValueBound(s[..|s| - 1]);
    }
  }

  lemma {:induction false} Pow10Sum(a: nat, b: nat)
    ensures Pow10(a + b) == Pow10(a) * Pow10(b)
  {
    if a > 0 {
      Pow10Sum(a - 1, b);
      TenTimes(Pow10(b), Pow10(a - 1));
    }
  }

  /** A numeral contains no colon, so the last colon of a joined key splits it uniquely. */
  lemma ColonSplit(a: string, s: string, b: string, t: string)
    requires AllDigits(s) && AllDigits(t)
    requires a + ":" + s == b + ":" + t
    ensures a == b && s == t
  {
    var x := a + ":" + s;
    var y := b + ":" + t;
    assert x[|a|] == ':' && y[|b|] == ':';
    assert forall k :: |a| < k < |x| ==> x[k] == s[k - |a| - 1];
    assert forall k :: |b| < k < |y| ==> y[k] == t[k - |b| - 1];
    assert a == x[..|a|] && b == y[..|b|];
    assert s == x[|a| + 1..] && t == y[|b| + 1..];
  }
}
