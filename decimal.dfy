/**
 * Decimal rendering of whole numbers, as `{}` and `{:.0}` print them in the
 * log files, and the reader that turns such digits back into numbers.
 */
module Decimal {

  predicate IsDigit(c: char) {
    '0' <= c <= '9'
  }

  predicate AllDigits(s: string) {
    forall i :: 0 <= i < |s| ==> IsDigit(s[i])
  }

  function DigitValue(c: char): nat
    requires IsDigit(c)
  {
    (c as int) - ('0' as int)
  }

  function DigitChar(d: nat): (c: char)
    requires d < 10
    ensures IsDigit(c) && DigitValue(c) == d
  {
    (('0' as int) + d) as char
  }

  /** The shortest decimal numeral of `n`: at least one digit, no leading zero. */
  function FromNat(n: nat): (s: string)
    ensures |s| >= 1 && AllDigits(s)
    ensures s[0] == '0' ==> n == 0
  {
    if n < 10 then [DigitChar(n)] else FromNat(n / 10) + [DigitChar(n % 10)]
  }

  function Pow10(k: nat): nat {
    if k == 0 then 1 else 10 * Pow10(k - 1)
  }

  /** The number a string of digits denotes, read most significant digit first. */
  function DigitsValue(d: string): nat
    requires AllDigits(d)
  {
    if d == [] then 0 else 10 * DigitsValue(d[..|d| - 1]) + DigitValue(d[|d| - 1])
  }

  /**
   * Reads the longest prefix of digits of `s`, accumulating onto `acc`;
   * returns the number and the text after the digits.
   */
  function ReadNat(s: string, acc: nat): (r: (nat, string))
    ensures |r.1| <= |s|
    ensures r.1 == [] || !IsDigit(r.1[0])
    decreases |s|
  {
    if |s| > 0 && IsDigit(s[0]) then ReadNat(s[1..], 10 * acc + DigitValue(s[0])) else (acc, s)
  }

  lemma {:induction false} FromNatValue(n: nat)
    ensures DigitsValue(FromNat(n)) == n
  {
    if n >= 10 {
      var s := FromNat(n);
      assert s[..|s| - 1] == FromNat(n / 10);
      FromNatValue(n / 10);
    }
  }

  lemma ShiftDigit(acc: nat, p: nat, v: nat, c: nat)
    ensures 10 * (acc * p + v) + c == acc * (10 * p) + (10 * v + c)
  {
  }

  /** Reading through a run of digits shifts the accumulator and adds their value. */
  lemma {:induction false} ReadDigits(d: string, u: string, acc: nat)
    requires AllDigits(d)
    ensures ReadNat(d + u, acc) == ReadNat(u, acc * Pow10(|d|) + DigitsValue(d))
    decreases |d|
  {
    if d == [] {
      assert d + u == u;
    } else {
      var front, c := d[..|d| - 1], d[|d| - 1];
      var p, w := Pow10(|front|), DigitsValue(front);
      assert Pow10(|d|) == 10 * p;
      assert DigitsValue(d) == 10 * w + DigitValue(c);
      assert d + u == front + ([c] + u);
      ReadDigits(front, [c] + u, acc);
      var v := acc * p + w;
      assert ([c] + u)[1..] == u;
      assert ReadNat([c] + u, v) == ReadNat(u, 10 * v + DigitValue(c));
      ShiftDigit(acc, p, w, DigitValue(c));
      calc {
        ReadNat(d + u, acc);
        ReadNat(front + ([c] + u), acc);
        ReadNat([c] + u, v);
        ReadNat(u, 10 * v + DigitValue(c));
        ReadNat(u, acc * Pow10(|d|) + DigitsValue(d));
      }
    }
  }

  /** Round trip: the reader recovers `n` from its numeral and stops at the first non-digit. */
  lemma ReadFromNat(n: nat, t: string)
    requires t == [] || !IsDigit(t[0])
    ensures ReadNat(FromNat(n) + t, 0) == (n, t)
  {
    ReadDigits(FromNat(n), t, 0);
    FromNatValue(n);
  }
}
