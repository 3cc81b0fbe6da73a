/** std::to_string and std::stoi, as the status code uses them on its way through the tunnel. */
module Decimal {
  import opened Octets
  import opened AadCodec

  function DigitsOf(n: nat): (s: Text)
    ensures s != "" && AllDigits(s)
  {
    var last := ('0' as int + n % 10) as char;
    if n < 10 then [last] else DigitsOf(n / 10) + [last]
  }

  function ToString(n: int): Text {
    if n < 0 then "-" + DigitsOf(-n) else DigitsOf(n)
  }

  function DigitValue(c: Octet): nat
    requires IsDigit(c)
  {
    c as int - '0' as int
  }

  function DigitRun(s: Text): (n: nat)
    ensures n <= |s|
    ensures forall i :: 0 <= i < n ==> IsDigit(s[i])
    ensures n < |s| ==> !IsDigit(s[n])
  {
    if s == "" || !IsDigit(s[0]) then 0 else 1 + DigitRun(s[1..])
  }

  function DigitsValue(s: Text): nat
    requires AllDigits(s)
  {
    if s == "" then 0 else DigitsValue(s[..|s| - 1]) * 10 + DigitValue(s[|s| - 1])
  }

  const INT_MIN := -0x8000_0000
  const INT_MAX := 0x7FFF_FFFF

  /** White space, an optional sign, the longest run of digits; None where stoi throws. */
  function Stoi(s: Text): Option<int> {
    var t := SkipSpace(s);
    if t != "" && t[0] == '-' then InRange(-1, t[1..])
    else if t != "" && t[0] == '+' then InRange(1, t[1..])
    else InRange(1, t)
  }

  /** The number read from the digits at the start of s, if there are any and an int can hold it. */
  function InRange(sign: int, s: Text): Option<int> {
    var n := DigitRun(s);
    var v := sign * DigitsValue(s[..n]);
    if n > 0 && INT_MIN <= v <= INT_MAX then Some(v) else None
  }

  lemma {:induction false} DigitsValueOfDigits(n: nat)
    ensures DigitsValue(DigitsOf(n)) == n
  {
    var s := DigitsOf(n);
    if n >= 10 {
      DigitsValueOfDigits(n / 10);
      assert s[..|s| - 1] == DigitsOf(n / 10);
    } else {
      assert s[..|s| - 1] == "";
    }
  }

  lemma InRangeOfDigits(sign: int, n: nat)
    ensures InRange(sign, DigitsOf(n)) == if INT_MIN <= sign * n <= INT_MAX then Some(sign * n) else None
  {
    var digits := DigitsOf(n);
    DigitsValueOfDigits(n);
    assert DigitRun(digits) == |digits| && digits[..|digits|] == digits;
  }

  /** Printing and reading gives every number of the int range back; stoi throws on all others. */
  lemma StoiOfToString(n: int)
    ensures Stoi(ToString(n)) == if INT_MIN <= n <= INT_MAX then Some(n) else None
  {
    var t := ToString(n);
    assert SkipSpace(t) == t;
    if n < 0 {
      InRangeOfDigits(-1, -n);
      assert t[1..] == DigitsOf(-n);
    } else {
      InRangeOfDigits(1, n);
    }
  }

  /** Printed numbers are decimal: the last digit is the remainder by ten, the others print the quotient. */
  lemma PrintedInDecimal(n: nat, d: nat)
    requires d < 10
    ensures ToString(d) == ["0123456789"[d]]
    ensures n > 0 ==> ToString(10 * n + d) == ToString(n) + ["0123456789"[d]]
    ensures n > 0 ==> ToString(0 - n) == "-" + ToString(n)
  {
    assert (10 * n + d) % 10 == d && (10 * n + d) / 10 == n;
  }

  /** A number is read as the digits stand for it: each further digit counts ten times what stands before. */
  lemma ReadInDecimal(s: Text, d: nat)
    requires AllDigits(s) && d < 10
    ensures var t := s + ["0123456789"[d]];
            AllDigits(t) && DigitsValue(t) == 10 * DigitsValue(s) + d && DigitsValue("") == 0
  {
    var t := s + ["0123456789"[d]];
    assert t[..|t| - 1] == s;
  }

  lemma {:induction false} LeadingZero(s: Text)
    requires AllDigits(s)
    ensures AllDigits("0" + s) && DigitsValue("0" + s) == DigitsValue(s)
  {
    var t: Text := "0" + s;
    if s == "" {
      assert t[..0] == "";
    } else {
      var init := s[..|s| - 1];
      LeadingZero(init);
      assert t[..|t| - 1] == "0" + init;
    }
  }

  lemma {:induction false} RunOfDigits(digits: Text, rest: Text)
    requires AllDigits(digits) && (rest == "" || !IsDigit(rest[0]))
    ensures DigitRun(digits + rest) == |digits|
  {
    if digits == "" {
      assert digits + rest == rest;
    } else {
      assert (digits + rest)[1..] == digits[1..] + rest;
      RunOfDigits(digits[1..], rest);
    }
  }

  /** White space before a number, a sign and anything but a digit after it do not matter. */
  lemma StoiOfNumberInText(blank: Text, sign: Text, n: nat, rest: Text)
    requires AllSpace(blank) && sign in {"", "+", "-"}
    requires rest == "" || !('0' <= rest[0] <= '9')
    ensures var v: int := if sign == "-" then 0 - n else n;
            Stoi(blank + (sign + (ToString(n) + rest)))
            == if -2147483648 <= v <= 2147483647 then Some(v) else None
  {
    InRangeOfNumber(1, n, rest);
    InRangeOfNumber(-1, n, rest);
    StoiAfterBlank(blank, sign, ToString(n) + rest);
  }

  lemma StoiAfterBlank(blank: Text, sign: Text, number: Text)
    requires AllSpace(blank) && sign in {"", "+", "-"} && number != "" && IsDigit(number[0])
    ensures Stoi(blank + (sign + number)) == InRange(if sign == "-" then -1 else 1, number)
  {
    SkipRun(blank, sign + number);
    if sign == "" {
      assert sign + number == number;
    } else {
      assert (sign + number)[1..] == number;
    }
  }

  lemma InRangeOfNumber(sign: int, n: nat, rest: Text)
    requires rest == "" || !('0' <= rest[0] <= '9')
    ensures var number := DigitsOf(n) + rest;
            && IsDigit(number[0])
            && InRange(sign, number) == if INT_MIN <= sign * n <= INT_MAX then Some(sign * n) else None
  {
    var digits := DigitsOf(n);
    RunOfDigits(digits, rest);
    DigitsValueOfDigits(n);
    assert (digits + rest)[..|digits|] == digits;
  }

  lemma ToStringIsToken(n: int)
    ensures IsToken(ToString(n))
  {
  }
}
