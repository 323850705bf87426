/** Decimal text of integers, as an f-string prints them. */
module Decimal {

  const DIGITS := ['0', '1', '2', '3', '4', '5', '6', '7', '8', '9']

  function Text(n: int): (s: string)
    ensures |s| >= 1
    decreases if n < 0 then -n + 1 else n
  {
    if n < 0 then "-" + Text(-n)
    else if n < 10 then [DIGITS[n]]
    else Text(n / 10) + [DIGITS[n % 10]]
  }

  /** The number a text of digits denotes. */
  function Value(s: string): nat {
    if s == "" || s[|s| - 1] !in DIGITS then 0
    else Value(s[..|s| - 1]) * 10 + (s[|s| - 1] as int - '0' as int)
  }

  lemma {:induction false} TextIsDigits(n: nat)
    ensures forall c | c in Text(n) :: c in DIGITS
    ensures Value(Text(n)) == n
  {
    if n < 10 {
      DigitValue(n);
      assert [DIGITS[n]][..0] == "";
    } else {
      TextIsDigits(n / 10);
      DigitValue(n % 10);
      assert Text(n)[..|Text(n)| - 1] == Text(n / 10);
    }
  }

  lemma {:induction false} DigitValue(d: nat)
    requires d < 10
    ensures DIGITS[d] in DIGITS && DIGITS[d] as int - '0' as int == d
  {
  }

  lemma {:induction false} UpToColon(x: string, a: string, y: string, b: string)
    requires ':' !in x && ':' !in y && x + ":" + a == y + ":" + b
    ensures |x| <= |y|
  {
    var s, t := x + ":" + a, y + ":" + b;
    assert t[|y|] == ':';
    assert forall i | 0 <= i < |x| :: s[i] in x;
  }

  /** Two numbers, each followed by a colon and more text, read the same only if both parts do. */
  lemma {:induction false} NumberThenText(m: nat, a: string, n: nat, b: string)
    requires Text(m) + ":" + a == Text(n) + ":" + b
    ensures m == n && a == b
  {
    TextIsDigits(m);
    TextIsDigits(n);
    assert ':' !in DIGITS;
    UpToColon(Text(m), a, Text(n), b);
    UpToColon(Text(n), b, Text(m), a);
    assert (Text(m) + ":" + a)[..|Text(m)|] == Text(m) && (Text(n) + ":" + b)[..|Text(n)|] == Text(n);
    assert (Text(m) + ":" + a)[|Text(m)| + 1..] == a && (Text(n) + ":" + b)[|Text(n)| + 1..] == b;
  }
}
