/** Numbers as decimal text. */
module Numerals {
  import opened Options

  predicate IsDigit(c: char) {
    '0' <= c <= '9'
  }

  /** The value of a string of digits; the empty one is zero. */
  function Digits(s: string): Option<nat> {
    if |s| == 0 then Some(0)
    else
      var high :- Digits(s[..|s| - 1]);
      if IsDigit(s[|s| - 1]) then Some(high * 10 + (s[|s| - 1] as int - '0' as int)) else None
  }

  /** The value of text the UINT pattern matches: one digit or more. */
  function Uint(s: string): Option<nat> {
    if s == "" then None else Digits(s)
  }

  lemma {:induction false} DigitsExactly(s: string)
    ensures Digits(s).Some? <==> forall i :: 0 <= i < |s| ==> IsDigit(s[i])
    ensures Digits(s) == Some(0) <==> forall i :: 0 <= i < |s| ==> s[i] == '0'
  {
    if |s| > 0 {
      var init := s[..|s| - 1];
      DigitsExactly(init);
      assert forall i :: 0 <= i < |init| ==> init[i] == s[i];
    }
  }

  /** Python's `str` of a natural number. */
  function Decimal(n: nat): (s: string)
    ensures |s| > 0
  {
    var digit := [('0' as int + n % 10) as char];
    if n < 10 then digit else Decimal(n / 10) + digit
  }

  lemma {:induction false} DecimalDiffers(m: nat, n: nat)
    requires Decimal(m) == Decimal(n)
    ensures m == n
  {
    var s, t := Decimal(m), Decimal(n);
    assert s[|s| - 1] == ('0' as int + m % 10) as char && t[|t| - 1] == ('0' as int + n % 10) as char;
    assert m >= 10 ==> s[..|s| - 1] == Decimal(m / 10);
    assert n >= 10 ==> t[..|t| - 1] == Decimal(n / 10);
    if m >= 10 && n >= 10 {
      DecimalDiffers(m / 10, n / 10);
    }
  }

  /** Reading gives back the number that was written. */
  lemma {:induction false} ReadsBack(n: nat)
    ensures Digits(Decimal(n)) == Some(n) && Uint(Decimal(n)) == Some(n)
  {
    var s := Decimal(n);
    if n >= 10 {
      ReadsBack(n / 10);
      assert s[..|s| - 1] == Decimal(n / 10);
    } else {
      assert s[..|s| - 1] == "";
    }
  }

  /** Zeros in front change nothing, so every numeral has one value and every value many numerals. */
  lemma {:induction false} LeadingZero(s: string)
    ensures Digits("0" + s) == Digits(s)
  {
    var more := "0" + s;
    if |s| == 0 {
      assert more[..0] == "";
    } else {
      LeadingZero(s[..|s| - 1]);
      assert more[..|more| - 1] == "0" + s[..|s| - 1];
    }
  }

  lemma {:induction false} DigitCount(n: nat)
    ensures |Decimal(n)| == if n < 10 then 1 else |Decimal(n / 10)| + 1
    ensures |Decimal(n)| >= 1
  {
  }
}
