/**
 * Python's `str(n)` for an integer: an optional minus sign and the decimal
 * digits without leading zeros.  The app uses it for the placeholder name
 * `f"Scheme {id}"` and for the keys `str(id)` of the expense-ratio map;
 * `Parse` reads such a string back, which shows that distinct ids never
 * share a label or a key.
 */
module IntText {

  function Digit(d: nat): char
    requires d < 10
  {
    ('0' as int + d) as char
  }

  predicate IsDigit(c: char) {
    '0' <= c <= '9'
  }

  function DigitValue(c: char): nat
    requires IsDigit(c)
  {
    c as int - '0' as int
  }

  /** The decimal digits of `n`, most significant first. */
  function NatString(n: nat): (s: string)
    ensures |s| >= 1 && forall i :: 0 <= i < |s| ==> IsDigit(s[i])
    ensures |s| > 1 ==> s[0] != '0'
  {
    if n < 10 then [Digit(n)] else NatString(n / 10) + [Digit(n % 10)]
  }

  /** `str(i)`. */
  function IntString(i: int): (s: string)
    ensures |s| >= 1
  {
    if i < 0 then "-" + NatString(-i) else NatString(i)
  }

  /** The number written by a string of digits. */
  function ParseNat(s: string): nat
    requires forall i :: 0 <= i < |s| ==> IsDigit(s[i])
  {
    if s == [] then 0 else ParseNat(s[..|s| - 1]) * 10 + DigitValue(s[|s| - 1])
  }

  /** `int(s)` on what `IntString` produces. */
  function Parse(s: string): int
    requires s != [] && (s[0] == '-' ==> |s| > 1)
    requires forall i :: 0 <= i < |s| ==> IsDigit(s[i]) || (i == 0 && s[i] == '-')
  {
    if s[0] == '-' then -(ParseNat(s[1..]) as int) else ParseNat(s)
  }

  lemma {:induction false} ParseNatString(n: nat)
    ensures ParseNat(NatString(n)) == n
  {
    if n >= 10 {
      var s := NatString(n);
      assert s[..|s| - 1] == NatString(n / 10);
      ParseNatString(n / 10);
    }
  }

  /** `int(str(i)) == i`. */
  lemma ParseIntString(i: int)
    ensures Parse(IntString(i)) == i
  {
    if i < 0 {
      assert IntString(i)[1..] == NatString(-i);
      ParseNatString(-i);
    } else {
      ParseNatString(i);
    }
  }

  /** Distinct integers have distinct decimal strings. */
  lemma IntStringInjective(a: int, b: int)
    ensures IntString(a) == IntString(b) ==> a == b
  {
    ParseIntString(a);
    ParseIntString(b);
  }
}
