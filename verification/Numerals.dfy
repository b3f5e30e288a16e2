/** What else parse_int reads (Utils.c:261-274): strtol is called with base zero, and
    its result is converted to an int. */
module Numerals {
  import opened Decimal

  function DigitOf(d: nat): char
    requires d < 16
  {
    if d < 10 then Digit(d) else ('a' as int + (d - 10)) as char
  }

  /** n printed in base 8 or 16, nothing for zero. */
  function InBase(n: nat, base: nat): (s: string)
    requires 2 <= base <= 16
    ensures n == 0 <==> s == ""
    ensures forall k | 0 <= k < |s| :: DigitIn(s[k], base) >= 0
  {
    if n == 0 then ""
    else
      SmallerQuotient(n, base);
      InBase(n / base, base) + [DigitOf(n % base)]
  }

  lemma SmallerQuotient(n: nat, base: nat)
    requires n > 0 && base >= 2
    ensures n / base < n && n == n / base * base + n % base
  {
  }

  lemma {:induction false} AccumulateSnocIn(s: string, c: char, base: nat, acc: nat)
    requires DigitIn(c, base) >= 0 && forall k | 0 <= k < |s| :: DigitIn(s[k], base) >= 0
    ensures Accumulate(s + [c], base, acc) == Accumulate(s, base, acc) * base + DigitIn(c, base)
  {
    if s == "" {
      assert [c][1..] == "";
    } else {
      assert (s + [c])[1..] == s[1..] + [c];
      AccumulateSnocIn(s[1..], c, base, acc * base + DigitIn(s[0], base));
    }
  }

  lemma {:induction false} AccumulateInBase(n: nat, base: nat)
    requires 2 <= base <= 16
    ensures Accumulate(InBase(n, base), base, 0) == n
  {
    if n == 0 {
    } else {
      SmallerQuotient(n, base);
      AccumulateInBase(n / base, base);
      AccumulateSnocIn(InBase(n / base, base), DigitOf(n % base), base, 0);
    }
  }

  /** strtol is called with base zero: a leading 0 makes the number octal, a leading 0x
      hexadecimal. */
  lemma ParseIntOfPrefixed(n: nat)
    requires n <= LONG_MAX
    ensures ParseInt("0" + InBase(n, 8)) == ToInt32(n)
    ensures n > 0 ==> ParseInt("0x" + InBase(n, 16)) == ToInt32(n)
  {
    var octal, hex := "0" + InBase(n, 8), "0x" + InBase(n, 16);
    AccumulateInBase(n, 8);
    AccumulateInBase(n, 16);
    assert octal[1..] == InBase(n, 8) && hex[2..] == InBase(n, 16);
    assert InBase(n, 8) != "" ==> DigitIn(InBase(n, 8)[0], 8) >= 0;
    assert n > 0 ==> hex[2] == InBase(n, 16)[0] && DigitIn(InBase(n, 16)[0], 16) >= 0;
  }

  /** Blanks in front do not matter, and a sign does. */
  lemma ParseIntOfSigned(n: nat, blank: char)
    requires n <= LONG_MAX && IsSpace(blank)
    ensures ParseInt("-" + Printed(n)) == ToInt32(-(n as int))
    ensures ParseInt("+" + Printed(n)) == ToInt32(n)
    ensures ParseInt([blank] + Printed(n)) == ParseInt(Printed(n))
  {
    AccumulateDigits(n);
    var minus, plus := "-" + Printed(n), "+" + Printed(n);
    assert minus[1..] == Printed(n) && plus[1..] == Printed(n);
    assert ([blank] + Printed(n))[1..] == Printed(n);
  }

  /** The conversion to int: the one int that differs by a multiple of 2^32; so a number
      that fits is unchanged. */
  lemma ToInt32Is(v: int)
    ensures -INT_MAX - 1 <= ToInt32(v) <= INT_MAX
    ensures (v - ToInt32(v)) % 0x1_0000_0000 == 0
    ensures -INT_MAX - 1 <= v <= INT_MAX <==> ToInt32(v) == v
  {
  }

  /** A number that does not fit a long is reported and read as zero. */
  lemma ParseIntOfTooLong(n: nat)
    requires n > LONG_MAX
    ensures ParseInt(Printed(n)) == 0
  {
    AccumulateDigits(n);
    assert !IsSpace(Digits(n)[0]);
  }
}
