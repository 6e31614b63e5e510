/** Decimal notation. */
module Decimal {
  type Digit = d: nat | d < 10

  function Digits(n: nat): (digits: seq<Digit>)
    ensures digits != []
  {
    if n < 10 then [n] else Digits(n / 10) + [n % 10]
  }

  function ValueOf(digits: seq<Digit>): nat {
    if digits == [] then 0 else ValueOf(digits[..|digits| - 1]) * 10 + digits[|digits| - 1]
  }

  lemma {:induction false} DigitsValue(n: nat)
    ensures ValueOf(Digits(n)) == n
  {
    if n >= 10 {
      DigitsValue(n / 10);
      assert Digits(n)[..|Digits(n)| - 1] == Digits(n / 10);
    } else {
      assert Digits(n)[..0] == [];
    }
  }

  /** Without a leading zero, the digits of a number are the only ones. */
  predicate IsCanonical(digits: seq<Digit>) { |digits| == 1 || (|digits| > 1 && digits[0] != 0) }

  lemma {:induction false} DigitsAreCanonical(n: nat)
    ensures IsCanonical(Digits(n)) && (n > 0 ==> Digits(n)[0] != 0)
  {
    if n >= 10 {
      DigitsAreCanonical(n / 10);
    }
  }

  lemma {:induction false} LeadingDigitShows(digits: seq<Digit>)
    requires digits != [] && digits[0] != 0
    ensures ValueOf(digits) > 0
  {
    if |digits| > 1 {
      LeadingDigitShows(digits[..|digits| - 1]);
    }
  }

  lemma {:induction false} CanonicalDigits(digits: seq<Digit>)
    requires IsCanonical(digits)
    ensures Digits(ValueOf(digits)) == digits
  {
    var n := |digits| - 1;
    if n == 0 {
      assert ValueOf(digits[..0]) == 0;
      assert digits == [digits[0]];
    } else {
      CanonicalDigits(digits[..n]);
      LeadingDigitShows(digits[..n]);
      assert ValueOf(digits) / 10 == ValueOf(digits[..n]) && ValueOf(digits) % 10 == digits[n];
      assert digits == digits[..n] + [digits[n]];
    }
  }

  // ---------------------------------------------------------------------------------------------------
  // In writing

  predicate IsDigit(c: char) { '0' <= c <= '9' }

  predicate IsNumeric(s: string) { s != "" && forall c <- s :: IsDigit(c) }

  predicate HasLeadingZero(s: string) { IsNumeric(s) && |s| > 1 && s[0] == '0' }

  function ToChar(d: Digit): (c: char)
    ensures IsDigit(c)
  {
    ('0' as int + d) as char
  }

  function FromChar(c: char): Digit
    requires IsDigit(c)
  {
    c as int - '0' as int
  }

  function ToText(digits: seq<Digit>): (s: string)
    ensures |s| == |digits| && forall i :: 0 <= i < |s| ==> IsDigit(s[i])
  {
    seq(|digits|, i requires 0 <= i < |digits| => ToChar(digits[i]))
  }

  function FromText(s: string): seq<Digit>
    requires forall c <- s :: IsDigit(c)
  {
    seq(|s|, i requires 0 <= i < |s| => FromChar(s[i]))
  }

  function Show(n: nat): string { ToText(Digits(n)) }

  function Number(s: string): nat
    requires IsNumeric(s)
  {
    ValueOf(FromText(s))
  }

  lemma ShowIsExact(n: nat)
    ensures IsNumeric(Show(n)) && !HasLeadingZero(Show(n)) && Number(Show(n)) == n
  {
    var digits := Digits(n);
    assert FromText(ToText(digits)) == digits;
    DigitsValue(n);
    DigitsAreCanonical(n);
    assert |digits| > 1 ==> digits[0] != 0;
  }

  lemma NumberIsExact(s: string)
    requires IsNumeric(s) && !HasLeadingZero(s)
    ensures Show(Number(s)) == s
  {
    var digits := FromText(s);
    assert |s| > 1 ==> digits[0] != 0;
    CanonicalDigits(digits);
    assert ToText(digits) == s;
  }
}
