/** Decimal numerals: what Python's `str(int)` and bash's `printf` write, and what
    `int(...)` reads back once the digits have been checked. */
module Decimal {

  predicate IsDigit(c: char) {
    '0' <= c <= '9'
  }

  predicate AllDigits(s: string) {
    forall i :: 0 <= i < |s| ==> IsDigit(s[i])
  }

  function DigitValue(c: char): nat
    requires IsDigit(c)
  {
    (c as int) - ('0' as int)
  }

  function DigitChar(d: nat): (c: char)
    requires d < 10
    ensures IsDigit(c) && DigitValue(c) == d
  {
    (d + '0' as int) as char
  }

  /** The number a digit string denotes; leading zeros are allowed. */
  function Value(s: string): nat
    requires AllDigits(s)
  {
    if s == "" then 0 else 10 * Value(s[..|s| - 1]) + DigitValue(s[|s| - 1])
  }

  function Print(n: nat): (s: string)
    ensures s != "" && AllDigits(s)
  {
    if n < 10 then [DigitChar(n)] else Print(n / 10) + [DigitChar(n % 10)]
  }

  /** No superfluous leading zero: the numerals `(0|[1-9]\d*)`. */
  predicate Canonical(s: string) {
    s != "" && AllDigits(s) && (s[0] == '0' ==> |s| == 1)
  }

  lemma {:induction false} ValueOfPrint(n: nat)
    ensures Value(Print(n)) == n
    ensures Canonical(Print(n))
    ensures n > 0 ==> Print(n)[0] != '0'
  {
    if n < 10 {
      assert Print(n)[..0] == "";
    } else {
      ValueOfPrint(n / 10);
      var p := Print(n / 10);
      assert Print(n)[..|Print(n)| - 1] == p;
    }
  }

  lemma {:induction false} PositiveValue(s: string)
    requires Canonical(s) && s[0] != '0'
    ensures Value(s) > 0
  {
    if |s| > 1 {
      var p := s[..|s| - 1];
      assert p[0] == s[0];
      PositiveValue(p);
    }
  }

  lemma {:induction false} PrintOfValue(s: string)
    requires Canonical(s)
    ensures Print(Value(s)) == s
  {
    if |s| == 1 {
      assert s[..0] == "";
    } else {
      var p := s[..|s| - 1];
      assert p[0] == s[0];
      PrintOfValue(p);
      PositiveValue(p);
      assert Value(s) / 10 == Value(p) && Value(s) % 10 == DigitValue(s[|s| - 1]);
      assert s == p + [s[|s| - 1]];
    }
  }

  function Zeros(k: nat): string {
    seq(k, _ => '0')
  }

  /** A numeral for n: its printed form behind any number of zeros. */
  predicate Padded(s: string, n: nat, k: nat) {
    s == Zeros(k) + Print(n)
  }

  ghost predicate Denotes(s: string, n: nat) {
    exists k: nat :: Padded(s, n, k)
  }

  lemma {:induction false} ValueOfPadded(k: nat, s: string)
    requires s != "" && AllDigits(s)
    ensures AllDigits(Zeros(k) + s) && Value(Zeros(k) + s) == Value(s)
    decreases |s|
  {
    var t := Zeros(k) + s;
    if |s| == 1 {
      ValueOfZeros(k);
      assert t[..|t| - 1] == Zeros(k) && s[..0] == "";
    } else {
      assert t[..|t| - 1] == Zeros(k) + s[..|s| - 1];
      ValueOfPadded(k, s[..|s| - 1]);
    }
  }

  lemma {:induction false} ValueOfZeros(k: nat)
    ensures AllDigits(Zeros(k)) && Value(Zeros(k)) == 0
  {
    if k > 0 {
      assert Zeros(k)[..k - 1] == Zeros(k - 1);
      ValueOfZeros(k - 1);
    }
  }

  lemma {:induction false} DigitsArePadded(s: string) returns (k: nat)
    requires s != "" && AllDigits(s)
    ensures Padded(s, Value(s), k)
  {
    if Canonical(s) {
      PrintOfValue(s);
      k := 0;
    } else {
      k := DigitsArePadded(s[1..]);
      ValueOfPadded(1, s[1..]);
      assert s == Zeros(1) + s[1..];
      k := k + 1;
    }
  }

  /** A digit string has one value, the number it denotes. */
  lemma DenotesExactly(s: string, n: nat)
    ensures Denotes(s, n) <==> s != "" && AllDigits(s) && Value(s) == n
  {
    if k: nat :| Padded(s, n, k) {
      ValueOfPrint(n);
      ValueOfPadded(k, Print(n));
    }
    if s != "" && AllDigits(s) {
      var k := DigitsArePadded(s);
    }
  }
}
