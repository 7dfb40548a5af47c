/** `usize::to_string` and `str::parse::<usize>`. */
module Decimal {
  import opened Wrappers
  import opened Text

  const USIZE_LIMIT: nat := 18446744073709551616

  predicate AllDigits(s: string) { forall i :: 0 <= i < |s| ==> IsDigit(s[i]) }

  function DigitChar(d: nat): (c: char)
    requires d < 10
    ensures IsDigit(c) && c as int - '0' as int == d
  {
    (d + '0' as int) as char
  }

  function Value(s: string): nat
    requires AllDigits(s)
  {
    if s == "" then 0 else 10 * Value(s[..|s| - 1]) + (s[|s| - 1] as int - '0' as int)
  }

  function Show(n: nat): string {
    if n < 10 then [DigitChar(n)] else Show(n / 10) + [DigitChar(n % 10)]
  }

  /** A leading plus sign and leading zeros are accepted. */
  function ParseUsize(s: string): Option<nat> {
    var digits := if s != "" && s[0] == '+' then s[1..] else s;
    if digits == "" || !AllDigits(digits) || Value(digits) >= USIZE_LIMIT then None else Some(Value(digits))
  }

  lemma {:induction false} ShowValue(n: nat)
    ensures Show(n) != "" && AllDigits(Show(n)) && Value(Show(n)) == n
  {
    if n >= 10 {
      ShowValue(n / 10);
      assert Show(n)[..|Show(n)| - 1] == Show(n / 10);
    } else {
      assert Show(n)[..0] == "";
    }
  }

  /** Printed indices parse back, so different indices have different names. */
  lemma ShowParses(n: nat)
    requires n < USIZE_LIMIT
    ensures ParseUsize(Show(n)) == Some(n)
  {
    ShowValue(n);
    assert IsDigit(Show(n)[0]);
  }

  lemma ShowInjective(m: nat, n: nat)
    requires Show(m) == Show(n)
    ensures m == n
  {
    ShowValue(m);
    ShowValue(n);
  }

  /** `k` zeros and then the number as it is printed. */
  function Padded(k: nat, n: nat): string { seq(k, _ => '0') + Show(n) }

  lemma ShowNext(n: nat, c: char)
    requires IsDigit(c)
    ensures n > 0 ==> Show(n) + [c] == Show(10 * n + (c as int - '0' as int))
    ensures n == 0 ==> Show(n) == "0" && [c] == Show(c as int - '0' as int)
  {
  }

  /** Digits are a printed number after some zeros. */
  lemma {:induction false} DigitsAreShown(s: string) returns (k: nat)
    requires s != "" && AllDigits(s)
    ensures s == Padded(k, Value(s))
    decreases |s|
  {
    var init, c := s[..|s| - 1], s[|s| - 1];
    assert s == init + [c];
    if init == "" {
      k := 0;
      ShowNext(0, c);
      assert Value(init) == 0 && Padded(0, Value(s)) == Show(Value(s));
    } else {
      k := DigitsAreShown(init);
      ShowNext(Value(init), c);
      if Value(init) == 0 {
        k := k + 1;
        assert seq(k, _ => '0') == seq(k - 1, _ => '0') + ['0'];
      }
    }
  }

  lemma {:induction false} PaddedValue(k: nat, n: nat)
    ensures AllDigits(Padded(k, n)) && Value(Padded(k, n)) == n
    decreases k
  {
    ShowValue(n);
    if k == 0 {
      assert Padded(k, n) == Show(n);
    } else {
      PaddedValue(k - 1, n);
      assert Padded(k, n) == ['0'] + Padded(k - 1, n);
      LeadingZero(Padded(k - 1, n));
    }
  }

  lemma {:induction false} LeadingZero(s: string)
    requires AllDigits(s)
    ensures AllDigits(['0'] + s) && Value(['0'] + s) == Value(s)
    decreases |s|
  {
    var t := ['0'] + s;
    if s == "" {
      assert t[..|t| - 1] == "";
    } else {
      LeadingZero(s[..|s| - 1]);
      assert t[..|t| - 1] == ['0'] + s[..|s| - 1];
    }
  }

  /** Which names count as indices: exactly the printed numbers below the limit, after
      any zeros and at most one plus sign. */
  lemma ParsesExactly(s: string, n: nat)
    ensures ParseUsize(s) == Some(n) <==>
      n < 18446744073709551616 && exists k :: s == Padded(k, n) || s == "+" + Padded(k, n)
  {
    if ParseUsize(s) == Some(n) {
      var digits := if s[0] == '+' then s[1..] else s;
      var k := DigitsAreShown(digits);
      assert s == digits || s == "+" + digits;
    }
    if k :| n < USIZE_LIMIT && (s == Padded(k, n) || s == "+" + Padded(k, n)) {
      PaddedValue(k, n);
      ShowValue(n);
      assert Padded(k, n)[0] != '+';
      assert s[0] == '+' ==> s[1..] == Padded(k, n);
    }
  }
}
