/** Decimal printing (Strings.c:57-104) and parse_int (Utils.c:261-274). */
module Decimal {
  import opened CStrings

  const INT_MAX: int := 0x7FFF_FFFF
  const LONG_MAX: int := 0x7FFF_FFFF_FFFF_FFFF

  function Digit(d: nat): char
    requires d < 10
  {
    ('0' as int + d) as char
  }

  predicate IsDigit(c: char) { '0' <= c <= '9' }

  predicate AllDigits(s: string) {
    forall k | 0 <= k < |s| :: IsDigit(s[k])
  }

  /** What both printing loops produce: most significant digit first, nothing for zero. */
  function Digits(n: nat): (s: string)
    ensures AllDigits(s)
    ensures n > 0 ==> s != "" && s[0] != '0'
    ensures n == 0 <==> s == ""
  {
    if n == 0 then "" else Digits(n / 10) + [Digit(n % 10)]
  }

  /** The printed form of any C integer: negative values print as nothing. */
  function Printed(n: int): string {
    if n <= 0 then "" else Digits(n)
  }

  /** The number a string of digits stands for. */
  function Value(s: string): nat
    requires AllDigits(s)
  {
    if s == "" then 0
    else 10 * Value(s[..|s| - 1]) + (s[|s| - 1] as int - '0' as int)
  }

  lemma {:induction false} ValueOfDigits(n: nat)
    ensures Value(Digits(n)) == n
  {
    if n == 0 {
    } else {
      ValueOfDigits(n / 10);
      assert Digits(n)[..|Digits(n)| - 1] == Digits(n / 10);
    }
  }

  lemma DigitsInjective(m: nat, n: nat)
    ensures Digits(m) == Digits(n) <==> m == n
  {
    ValueOfDigits(m);
    ValueOfDigits(n);
  }

  function Pow10(k: nat): (r: nat)
    ensures r > 0
  {
    if k == 0 then 1 else 10 * Pow10(k - 1)
  }

  /** At most k digits exactly when the number is below the k-th power of ten. */
  lemma {:induction false} DigitCount(n: nat, k: nat)
    ensures |Digits(n)| <= k <==> n < Pow10(k)
  {
    if k == 0 || n == 0 {
    } else {
      DigitCount(n / 10, k - 1);
    }
  }

  /** Cells from..|cells|-1 hold the digits of `size` that are no longer in `value`. */
  ghost predicate TailWritten(cells: seq<char>, from: int, value: int, size: int) {
    && from == |Printed(value)| < |cells|
    && Printed(value) + cells[from..|cells| - 1] == Printed(size)
  }

  lemma TailGrows(cells: seq<char>, from: int, value: int, size: int)
    requires TailWritten(cells, from, value, size) && value > 0
    ensures from > 0
    ensures TailWritten(cells[from - 1 := Digit(value % 10)], from - 1, value / 10, size)
  {
    assert cells[from - 1 := Digit(value % 10)][from - 1..|cells| - 1]
        == [Digit(value % 10)] + cells[from..|cells| - 1];
  }

  /** The indices below `count` from the top down. */
  ghost predicate FromTheTop(writes: seq<int>, count: int) {
    forall k | 0 <= k < |writes| :: writes[k] == count - 1 - k
  }

  ghost predicate Progress(cells: seq<char>, writes: seq<int>, from: int, value: int, size: int) {
    TailWritten(cells, from, value, size) && FromTheTop(writes, |cells| - 1) && |writes| == |cells| - 1 - from
  }

  lemma ProgressGrows(cells: seq<char>, writes: seq<int>, from: int, value: int, size: int)
    requires Progress(cells, writes, from, value, size) && value > 0
    ensures from > 0
    ensures Progress(cells[from - 1 := Digit(value % 10)], writes + [from - 1], from - 1, value / 10, size)
  {
    TailGrows(cells, from, value, size);
  }

  /** convert_int_to_string and convert_long_to_string: count the digits, then
      write them from the last cell backwards, each cell once. The guard
      `count_cipher - i >= 0` compares an unsigned number with zero, so it never
      stops the second loop. `writes` lists the cells in the order of the writes. */
  method ConvertToString(size: int) returns (strNumber: array<char>, ghost writes: seq<int>)
    ensures fresh(strNumber) && strNumber.Length == |Printed(size)| + 1
    ensures strNumber[..] == Printed(size) + [NUL]
    ensures |writes| == strNumber.Length && writes[|writes| - 1] == |Printed(size)|
    ensures FromTheTop(writes[..|writes| - 1], |Printed(size)|)
  {
    var value, tmpValue := size, size;
    var countCipher := 0;
    while tmpValue > 0
      invariant countCipher + |Printed(tmpValue)| == |Printed(size)|
    {
      tmpValue := tmpValue / 10;
      countCipher := countCipher + 1;
    }
    var i := 1;
    strNumber, writes := new char[countCipher + 1], [];
    while value > 0
      invariant i >= 1
      invariant Progress(strNumber[..], writes, countCipher - i + 1, value, size)
    {
      ghost var cells := strNumber[..];
      ProgressGrows(cells, writes, countCipher - i + 1, value, size);
      strNumber[countCipher - i] := Digit(value % 10);
      assert strNumber[..] == cells[countCipher - i := Digit(value % 10)];
      writes := writes + [countCipher - i];
      value := value / 10;
      i := i + 1;
    }
    strNumber[countCipher] := NUL;
    assert (writes + [countCipher])[..|writes|] == writes;
    writes := writes + [countCipher];
  }

  // strtol(str, &p, 0): blanks, sign, base prefix, digits.

  predicate IsSpace(c: char) {
    c == ' ' || '\t' <= c <= '\r'
  }

  function SkipSpace(s: string): string {
    if s != "" && IsSpace(s[0]) then SkipSpace(s[1..]) else s
  }

  function DigitIn(c: char, base: nat): int {
    var d := if '0' <= c <= '9' then c as int - '0' as int
             else if 'a' <= c <= 'z' then c as int - 'a' as int + 10
             else if 'A' <= c <= 'Z' then c as int - 'A' as int + 10
             else -1;
    if d < base then d else -1
  }

  function Accumulate(s: string, base: nat, acc: nat): nat {
    if s == "" || DigitIn(s[0], base) < 0 then acc
    else Accumulate(s[1..], base, acc * base + DigitIn(s[0], base))
  }

  function Magnitude(s: string): nat {
    if |s| > 2 && s[0] == '0' && (s[1] == 'x' || s[1] == 'X') && DigitIn(s[2], 16) >= 0
    then Accumulate(s[2..], 16, 0)
    else if s != "" && s[0] == '0' then Accumulate(s, 8, 0)
    else Accumulate(s, 10, 0)
  }

  /** The conversion (int) of a long: the low 32 bits, read as two's complement. */
  function ToInt32(v: int): int {
    var low := v % 0x1_0000_0000;
    if low > INT_MAX then low - 0x1_0000_0000 else low
  }

  /** parse_int: 0 when strtol reports a value outside long. */
  function ParseInt(str: string): int {
    var s := SkipSpace(str);
    var negative := s != "" && s[0] == '-';
    var m: int := Magnitude(if s != "" && (s[0] == '-' || s[0] == '+') then s[1..] else s);
    var v: int := if negative then -m else m;
    if v < -LONG_MAX - 1 || v > LONG_MAX then 0 else ToInt32(v)
  }

  lemma {:induction false} AccumulateSnoc(s: string, c: char, acc: nat)
    requires AllDigits(s) && IsDigit(c)
    ensures Accumulate(s + [c], 10, acc) == 10 * Accumulate(s, 10, acc) + DigitIn(c, 10)
  {
    if s == "" {
      assert [c][1..] == "";
    } else {
      assert (s + [c])[1..] == s[1..] + [c];
      AccumulateSnoc(s[1..], c, acc * 10 + DigitIn(s[0], 10));
    }
  }

  lemma {:induction false} AccumulateDigits(n: nat)
    ensures Accumulate(Digits(n), 10, 0) == n
  {
    if n == 0 {
    } else {
      AccumulateDigits(n / 10);
      AccumulateSnoc(Digits(n / 10), Digit(n % 10), 0);
    }
  }

  /** Reading back a printed long gives its low 32 bits: the number itself
      exactly when it fits an int. */
  lemma ParseIntOfPrinted(n: nat)
    requires n <= LONG_MAX
    ensures ParseInt(Printed(n)) == ToInt32(n)
    ensures ParseInt(Printed(n)) == n <==> n <= INT_MAX
  {
    AccumulateDigits(n);
    if n > 0 {
      assert !IsSpace(Digits(n)[0]);
    }
  }
}
