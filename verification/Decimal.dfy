/** Decimal numerals. */
module Decimal {

  predicate IsDigit(c: char) {
    '0' <= c <= '9'
  }

  function Digit(d: nat): (c: char)
    requires d < 10
    ensures IsDigit(c) && (c - '0') as nat == d
  {
    '0' + d as char
  }

  predicate AllDigits(s: string) {
    forall c | c in s :: IsDigit(c)
  }

  function Numeral(n: nat): (s: string)
    ensures s != [] && AllDigits(s) && Value(s) == n
  {
    if n < 10 then [Digit(n)]
    else
      var front := Numeral(n / 10);
      assert (front + [Digit(n % 10)])[..|front|] == front;
      front + [Digit(n % 10)]
  }

  /** The number that a string of digits denotes, leading zeros included. */
  function Value(s: string): nat
    requires AllDigits(s)
  {
    if s == [] then 0
    else
      assert s[|s| - 1] in s;
      10 * Value(s[..|s| - 1]) + (s[|s| - 1] - '0') as nat
  }

  lemma ValueOfOneMore(front: string, c: char)
    requires AllDigits(front) && '0' <= c <= '9'
    ensures AllDigits(front + [c]) && Value(front + [c]) == 10 * Value(front) + (c - '0') as int
  {
    assert (front + [c])[..|front|] == front;
  }

  /** The most significant digit comes first. */
  lemma ValueOfTwo(s: string)
    requires |s| == 2 && AllDigits(s)
    ensures forall i | 0 <= i < 2 :: '0' <= s[i] <= '9'
    ensures Value(s) == 10 * (s[0] - '0') as int + (s[1] - '0') as int
  {
    assert forall i | 0 <= i < 2 :: s[i] in s;
    assert s == [] + [s[0]] + [s[1]];
    ValueOfOneMore([], s[0]);
    ValueOfOneMore([] + [s[0]], s[1]);
  }

  lemma ValueOfFour(s: string)
    requires |s| == 4 && AllDigits(s)
    ensures forall i | 0 <= i < 4 :: '0' <= s[i] <= '9'
    ensures Value(s) == 1000 * (s[0] - '0') as int + 100 * (s[1] - '0') as int + 10 * (s[2] - '0') as int
                        + (s[3] - '0') as int
  {
    assert forall i | 0 <= i < 4 :: s[i] in s;
    assert s == s[..2] + [s[2]] + [s[3]];
    ValueOfTwo(s[..2]);
    ValueOfOneMore(s[..2], s[2]);
    ValueOfOneMore(s[..2] + [s[2]], s[3]);
  }

  function Zeros(n: nat): (s: string)
    ensures |s| == n && AllDigits(s) && Value(s) == 0
  {
    if n == 0 then [] else
      var front := Zeros(n - 1);
      assert (front + ['0'])[..|front|] == front;
      front + ['0']
  }

  lemma {:induction false} LeadingZeros(n: nat, s: string)
    requires AllDigits(s)
    ensures AllDigits(Zeros(n) + s) && Value(Zeros(n) + s) == Value(s)
  {
    if s == [] {
      assert Zeros(n) + s == Zeros(n);
    } else {
      var k := |s| - 1;
      assert (Zeros(n) + s)[..n + k] == Zeros(n) + s[..k];
      LeadingZeros(n, s[..k]);
    }
  }

  /** At least `width` digits, padded with zeros. */
  function Padded(n: nat, width: nat): (s: string)
    ensures |s| >= width && AllDigits(s) && Value(s) == n
  {
    var s := Numeral(n);
    if |s| >= width then s
    else
      LeadingZeros(width - |s|, s);
      Zeros(width - |s|) + s
  }

  function Pow10(n: nat): (r: nat)
    ensures r >= 1
  {
    if n == 0 then 1 else 10 * Pow10(n - 1)
  }

  /** A numeral has at most `width` digits exactly for numbers below the power of ten. */
  lemma {:induction false} NumeralWidth(n: nat, width: nat)
    requires width > 0
    ensures |Numeral(n)| <= width <==> n < Pow10(width)
  {
    if width == 1 {
      assert Pow10(1) == 10;
    } else if n >= 10 {
      NumeralWidth(n / 10, width - 1);
      var p := Pow10(width - 1);
      assert n / 10 < p <==> n < 10 * p;
    } else {
      assert Pow10(width - 1) >= 1;
    }
  }

  lemma PaddedWidth(n: nat, width: nat)
    requires width > 0
    ensures |Padded(n, width)| == width <==> n < Pow10(width)
  {
    NumeralWidth(n, width);
  }
}
