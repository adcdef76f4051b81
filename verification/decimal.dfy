/**
 * Decimal rendering of natural numbers, as JavaScript's `String(n)` produces
 * it for the small non-negative integers the application uses as identifiers,
 * together with the inverse reading and the facts that make the rendering a
 * bijection onto canonical digit strings.
 */
module Decimal {

  predicate IsDigit(c: char) {
    '0' <= c <= '9'
  }

  predicate AllDigits(s: string) {
    forall i :: 0 <= i < |s| ==> IsDigit(s[i])
  }

  /** Non-empty, only digits, and no leading zero unless the string is "0". */
  predicate Canonical(s: string) {
    |s| >= 1 && AllDigits(s) && (|s| > 1 ==> s[0] != '0')
  }

  function DigitChar(d: nat): (c: char)
    requires d < 10
    ensures IsDigit(c)
  {
    "0123456789"[d]
  }

  function DigitValue(c: char): (d: nat)
    requires IsDigit(c)
    ensures d < 10
  {
    (c as int) - ('0' as int)
  }

  lemma DigitRoundTrip(d: nat)
    requires d < 10
    ensures DigitValue(DigitChar(d)) == d
  {
  }

  lemma CharRoundTrip(c: char)
    requires IsDigit(c)
    ensures DigitChar(DigitValue(c)) == c
  {
  }

  /** `String(n)` for a non-negative integer. */
  function FromNat(n: nat): (s: string)
    ensures Canonical(s)
    ensures n < 10 <==> |s| == 1
  {
    if n < 10 then [DigitChar(n)]
    else FromNat(n / 10) + [DigitChar(n % 10)]
  }

  /** The number a string of digits denotes. */
  function ToNat(s: string): nat
    requires AllDigits(s)
  {
    if |s| == 0 then 0
    else ToNat(s[..|s| - 1]) * 10 + DigitValue(s[|s| - 1])
  }

  /** Reading back a rendered number gives the number. */
  lemma {:induction false} ToNatFromNat(n: nat)
    ensures ToNat(FromNat(n)) == n
  {
    var s := FromNat(n);
    if n < 10 {
      DigitRoundTrip(n);
    } else {
      ToNatFromNat(n / 10);
      assert s[..|s| - 1] == FromNat(n / 10);
      DigitRoundTrip(n % 10);
    }
  }

  /** Distinct numbers render to distinct strings. */
  lemma FromNatInjective(m: nat, n: nat)
    ensures FromNat(m) == FromNat(n) <==> m == n
  {
    if FromNat(m) == FromNat(n) {
      ToNatFromNat(m);
      ToNatFromNat(n);
    }
  }

  lemma {:induction false} LeadingNonZero(s: string)
    requires |s| >= 1 && AllDigits(s) && s[0] != '0'
    ensures ToNat(s) >= 1
  {
    if |s| > 1 {
      LeadingNonZero(s[..|s| - 1]);
    }
  }

  /** Rendering the number a canonical string denotes gives the string back. */
  lemma {:induction false} FromNatToNat(s: string)
    requires Canonical(s)
    ensures FromNat(ToNat(s)) == s
  {
    var n := ToNat(s);
    var last := s[|s| - 1];
    if |s| == 1 {
      CharRoundTrip(last);
      assert s == [last];
    } else {
      var p := s[..|s| - 1];
      LeadingNonZero(p);
      FromNatToNat(p);
      assert n / 10 == ToNat(p) && n % 10 == DigitValue(last);
      CharRoundTrip(last);
      assert s == p + [last];
    }
  }

  /** The rendering of ten, the size of the preparedness checklist. */
  lemma RenderTen()
    ensures FromNat(10) == "10"
  {
    assert FromNat(1) == "1";
  }
}
