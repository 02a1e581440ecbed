/** Decimal text of integers, as the server's `format!` prints them. */
module Decimal {
  function Digit(d: nat): (c: char)
    requires d < 10
    ensures IsDigit(c) && Value(c) == d
  {
    '0' + (d as char)
  }

  predicate IsDigit(c: char) {
    '0' <= c <= '9'
  }

  function Value(c: char): nat
    requires IsDigit(c)
  {
    (c - '0') as nat
  }

  function Digits(n: nat): (s: string)
    ensures s != [] && AllDigits(s)
  {
    if n < 10 then [Digit(n)] else Digits(n / 10) + [Digit(n % 10)]
  }

  predicate AllDigits(s: string) {
    forall i :: 0 <= i < |s| ==> IsDigit(s[i])
  }

  function Text(n: int): string {
    if n < 0 then "-" + Digits(-n) else Digits(n)
  }

  /** Reading digits back: the value of `s`, most significant digit first. */
  function Number(s: string): nat
    requires AllDigits(s)
  {
    if s == [] then 0 else 10 * Number(s[..|s| - 1]) + Value(s[|s| - 1])
  }

  lemma {:induction false} NumberOfDigits(n: nat)
    ensures Number(Digits(n)) == n
  {
    if n >= 10 {
      NumberOfDigits(n / 10);
      assert Digits(n)[..|Digits(n)| - 1] == Digits(n / 10);
    }
  }

  /** Printed text: a sign for negative numbers, then digits without leading zeros that
      read back as the number. */
  lemma TextIs(n: int)
    ensures Text(n) != "" && (n < 0 <==> Text(n)[0] == '-')
    ensures var digits := if n < 0 then Text(n)[1..] else Text(n);
      && digits != "" && AllDigits(digits) && Number(digits) == (if n < 0 then -n else n)
      && (digits[0] == '0' ==> digits == "0")
    ensures 0 <= n < 10 ==> Text(n) == ["0123456789"[n]]
  {
    var m := if n < 0 then -n else n;
    NumberOfDigits(m);
    NoLeadingZero(m);
    if n < 0 {
      assert Text(n)[1..] == Digits(m);
    } else {
      assert IsDigit(Digits(m)[0]);
    }
  }

  lemma {:induction false} NoLeadingZero(n: nat)
    ensures Digits(n)[0] == '0' ==> Digits(n) == "0"
  {
    if n >= 10 {
      NoLeadingZero(n / 10);
      NumberOfDigits(n / 10);
    }
  }
}
