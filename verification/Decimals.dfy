/** How a counter reads in a string. */
module Decimals {
  function Digits(n: nat): (s: seq<char>)
    ensures s != [] && (|s| == 1 <==> n < 10)
  {
    if n < 10 then ["0123456789"[n]] else Digits(n / 10) + ["0123456789"[n % 10]]
  }

  lemma {:induction false} DigitsDiffer(m: nat, n: nat)
    requires Digits(m) == Digits(n)
    ensures m == n
  {
    var s, t := Digits(m), Digits(n);
    assert s[|s| - 1] == "0123456789"[m % 10] && t[|t| - 1] == "0123456789"[n % 10];
    assert m % 10 == n % 10;
    if m >= 10 {
      assert Digits(m / 10) == s[..|s| - 1] && Digits(n / 10) == t[..|t| - 1];
      DigitsDiffer(m / 10, n / 10);
    }
  }

  /** The number that a row of decimal digits writes. */
  function Value(s: seq<char>): (n: nat)
    requires forall i :: 0 <= i < |s| ==> '0' <= s[i] <= '9'
  {
    if s == [] then 0 else 10 * Value(s[..|s| - 1]) + (s[|s| - 1] - '0') as int
  }

  /** A counter reads as the number it is, without leading zeros. */
  lemma {:induction false} DigitsReadBack(n: nat)
    ensures forall i :: 0 <= i < |Digits(n)| ==> '0' <= Digits(n)[i] <= '9'
    ensures Value(Digits(n)) == n && (n > 0 ==> Digits(n)[0] != '0')
  {
    var s := Digits(n);
    DigitIsItsValue(n % 10);
    if n < 10 {
      assert n % 10 == n && s[..0] == [];
    } else {
      DigitsReadBack(n / 10);
      assert s[..|s| - 1] == Digits(n / 10);
    }
  }

  lemma DigitIsItsValue(d: nat)
    requires d < 10
    ensures var c := "0123456789"[d];
            '0' <= c <= '9' && (c - '0') as int == d
  {
  }
}
