/** Decimal numerals, as Python's str(n), f"{n:03d}" and int(s) write and read them. */
module Decimal {
  predicate IsDigit(c: char) {
    '0' <= c <= '9'
  }

  ghost predicate AllDigits(s: string) {
    forall i | 0 <= i < |s| :: IsDigit(s[i])
  }

  function DigitValue(c: char): nat
    requires IsDigit(c)
  {
    c as int - '0' as int
  }

  function Digits(n: nat): string {
    if n < 10 then ['0' + n as char] else Digits(n / 10) + ['0' + (n % 10) as char]
  }

  function Zeros(k: nat): string {
    if k == 0 then "" else ['0'] + Zeros(k - 1)
  }

  /** f"{n:03d}" */
  function Pad3(n: nat): string {
    var d := Digits(n);
    if |d| < 3 then Zeros(3 - |d|) + d else d
  }

  /** The number a string of digits stands for. */
  ghost function Value(s: string): nat
    requires AllDigits(s)
  {
    if s == "" then 0 else 10 * Value(s[..|s| - 1]) + DigitValue(s[|s| - 1])
  }

  lemma {:induction false} DigitsStandForNumber(n: nat)
    ensures Digits(n) != "" && AllDigits(Digits(n)) && Value(Digits(n)) == n
  {
    if n < 10 {
      assert Digits(n)[..0] == "";
    } else {
      DigitsStandForNumber(n / 10);
      assert Digits(n)[..|Digits(n)| - 1] == Digits(n / 10);
    }
  }

  lemma {:induction false} AllZeros(k: nat)
    ensures |Zeros(k)| == k && forall i | 0 <= i < k :: Zeros(k)[i] == '0'
  {
    if k > 0 {
      AllZeros(k - 1);
    }
  }

  lemma {:induction false} ZeroValue(k: nat)
    ensures AllDigits(Zeros(k)) && Value(Zeros(k)) == 0
  {
    if k > 0 {
      ZeroValue(k - 1);
      AllZeros(k);
      assert Zeros(k)[..k - 1] == Zeros(k - 1) by { AllZeros(k - 1); }
    }
  }

  lemma {:induction false} ZerosAddNothing(k: nat, s: string)
    requires AllDigits(s)
    ensures AllDigits(Zeros(k) + s) && Value(Zeros(k) + s) == Value(s)
    decreases k, |s|
  {
    if k > 0 {
      if s == "" {
        assert Zeros(k) + s == Zeros(k);
        ZeroValue(k);
      } else {
        ZerosAddNothing(k, s[..|s| - 1]);
        var t := Zeros(k) + s;
        assert t[..|t| - 1] == Zeros(k) + s[..|s| - 1];
        assert t == t[..|t| - 1] + [s[|s| - 1]];
      }
    } else {
      assert Zeros(0) + s == s;
    }
  }

  lemma PaddedStandsForNumber(n: nat)
    ensures Pad3(n) != "" && AllDigits(Pad3(n)) && Value(Pad3(n)) == n
    ensures |Pad3(n)| == if |Digits(n)| < 3 then 3 else |Digits(n)|
  {
    DigitsStandForNumber(n);
    if |Digits(n)| < 3 {
      AllZeros(3 - |Digits(n)|);
      ZerosAddNothing(3 - |Digits(n)|, Digits(n));
    }
  }

  /** A run of digits that a non-digit ends can be read back from the front of a string. */
  lemma NumeralsEndAtSeparator(a: string, b: string, separator: char, x: string, y: string)
    requires AllDigits(a) && AllDigits(b) && !IsDigit(separator)
    requires a + [separator] + x == b + [separator] + y
    ensures a == b && x == y
  {
    var s := a + [separator] + x;
    assert s[|a|] == separator && s[|b|] == separator;
    assert forall i | 0 <= i < |a| :: s[i] == a[i];
    assert forall i | 0 <= i < |b| :: s[i] == b[i];
    assert |a| == |b|;
    assert a == s[..|a|] && b == s[..|b|];
    assert x == s[|a| + 1..] && y == s[|b| + 1..];
  }

  lemma PaddedIsInjective(m: nat, n: nat, separator: char, x: string, y: string)
    requires !IsDigit(separator)
    requires Pad3(m) + [separator] + x == Pad3(n) + [separator] + y
    ensures m == n && x == y
  {
    PaddedStandsForNumber(m);
    PaddedStandsForNumber(n);
    NumeralsEndAtSeparator(Pad3(m), Pad3(n), separator, x, y);
  }
}
