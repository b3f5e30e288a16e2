/** The name under which an adapted image is cached (Strings.c:12-44, 216-242). */
module CacheKey {
  import opened CStrings
  import opened Decimal

  /** 1.0 as a fixed-point number with eight decimals. */
  const ONE: nat := 1_0000_0000

  /** 0.1: below it convert_float_to_string copies eight bytes out of a shorter string. */
  const TENTH: nat := 1000_0000

  /** A quality factor from a tenth upwards, printed with eight decimals;
      every quality of at least one prints as one. */
  function QualityText(q: nat): (s: string)
    requires q >= TENTH
  {
    if q >= ONE then "1.00000000" else "0." + Printed(q)
  }

  function Tail(width: int, height: int, colors: int): string {
    Printed(width) + Printed(height) + Printed(colors)
  }

  function Key(name: string, q: nat, width: int, height: int, colors: int): string
    requires q >= TENTH
  {
    name + QualityText(q) + Tail(width, height, colors)
  }

  lemma QualityShape(q: nat)
    requires q >= TENTH
    ensures |QualityText(q)| == 10 && QualityText(q)[1] == '.'
    ensures Free(QualityText(q)[..1], '.') && Free(QualityText(q)[2..], '.')
  {
    if q < ONE {
      assert Pow10(7) == TENTH && Pow10(8) == ONE;
      DigitCount(q, 7);
      DigitCount(q, 8);
      assert QualityText(q)[2..] == Digits(q);
    }
  }

  /** `s` is a decimal numeral for n. */
  predicate Reads(s: string, n: nat) {
    AllDigits(s) && Value(s) == n
  }

  /** The text of a quality, read without its dot, is the fixed-point number; a quality
      above one reads as one. */
  lemma QualityReadsBack(q: nat)
    requires q >= TENTH
    ensures var text := QualityText(q);
            && |text| == 10 && text[1] == '.'
            && Reads(text[..1] + text[2..], if q <= ONE then q else ONE)
  {
    QualityShape(q);
    var text := QualityText(q);
    if q < ONE {
      assert text[..1] + text[2..] == "0" + Digits(q);
      LeadingZero(Digits(q));
      ValueOfDigits(q);
    } else {
      assert text[..1] + text[2..] == "100000000";
      ValueOfOne();
    }
  }

  lemma {:induction false} LeadingZero(s: string)
    requires AllDigits(s)
    ensures AllDigits("0" + s) && Value("0" + s) == Value(s)
  {
    if s == "" {
      assert "0" + s == "0" && "0"[..0] == "";
    } else {
      assert ("0" + s)[..|s|] == "0" + s[..|s| - 1];
      LeadingZero(s[..|s| - 1]);
    }
  }

  lemma ValueOfOne()
    ensures Value("100000000") == ONE
  {
    var s := "100000000";
    assert s[..8] == "10000000" && s[..8][..7] == "1000000" && "1000000"[..6] == "100000";
    assert "100000"[..5] == "10000" && "10000"[..4] == "1000" && "1000"[..3] == "100";
    assert "100"[..2] == "10" && "10"[..1] == "1" && "1"[..0] == "";
    assert Value("1") == 1 && Value("10") == 10 && Value("100") == 100 && Value("1000") == 1000;
    assert Value("10000") == 10000 && Value("100000") == 100000 && Value("1000000") == 1000000;
  }

  lemma QualityInjective(q: nat, q': nat)
    requires TENTH <= q <= ONE && TENTH <= q' <= ONE
    ensures QualityText(q) == QualityText(q') <==> q == q'
  {
    DigitsInjective(q, q');
    if q < ONE && q' < ONE {
      assert QualityText(q)[2..] == Digits(q) && QualityText(q')[2..] == Digits(q');
    } else {
      assert QualityText(ONE)[0] == '1';
    }
  }

  /** In a key of a dot-free name the only dot comes one place after the name. */
  lemma KeyDot(name: string, q: nat, width: int, height: int, colors: int)
    requires Free(name, '.') && q >= TENTH
    ensures var key := Key(name, q, width, height, colors);
            && |key| == |name| + 10 + |Tail(width, height, colors)|
            && forall k | 0 <= k < |key| :: key[k] == '.' <==> k == |name| + 1
  {
    QualityShape(q);
    var key := Key(name, q, width, height, colors);
    var text := QualityText(q);
    forall k | 0 <= k < |key|
      ensures key[k] == '.' <==> k == |name| + 1
    {
      if k < |name| {
        assert key[k] == name[k];
      } else if k < |name| + 10 {
        assert key[k] == text[k - |name|];
        if k - |name| >= 2 {
          assert text[k - |name|] == text[2..][k - |name| - 2];
        } else if k == |name| {
          assert text[0] == text[..1][0];
        }
      } else {
        assert key[k] == Tail(width, height, colors)[k - |name| - 10];
      }
    }
  }

  /** Equal keys mean equal name, equal quality and equal digit tail. */
  lemma KeyDeterminesParts(name: string, q: nat, w: int, h: int, c: int,
                           name': string, q': nat, w': int, h': int, c': int)
    requires Free(name, '.') && TENTH <= q <= ONE
    requires Free(name', '.') && TENTH <= q' <= ONE
    ensures Key(name, q, w, h, c) == Key(name', q', w', h', c')
       <==> name == name' && q == q' && Tail(w, h, c) == Tail(w', h', c')
  {
    var key, key' := Key(name, q, w, h, c), Key(name', q', w', h', c');
    if key == key' {
      KeyDot(name, q, w, h, c);
      KeyDot(name', q', w', h', c');
      assert key[|name| + 1] == '.';
      assert name == key[..|name|] && name' == key'[..|name'|];
      QualityShape(q);
      QualityShape(q');
      assert QualityText(q) == key[|name|..|name| + 10];
      assert QualityText(q') == key'[|name'|..|name'| + 10];
      QualityInjective(q, q');
      assert Tail(w, h, c) == key[|name| + 10..] && Tail(w', h', c') == key'[|name'| + 10..];
    }
  }

  /** The digit tail alone does not say where width, height and colours begin:
      it determines them exactly when the digit counts of width and height agree. */
  lemma TailDeterminesDimensions(w: nat, h: nat, c: nat, w': nat, h': nat, c': nat)
    requires Tail(w, h, c) == Tail(w', h', c')
    ensures w == w' && h == h' && c == c'
       <==> |Printed(w)| == |Printed(w')| && |Printed(h)| == |Printed(h')|
  {
    var t, t' := Tail(w, h, c), Tail(w', h', c');
    if |Printed(w)| == |Printed(w')| && |Printed(h)| == |Printed(h')| {
      var i, j := |Printed(w)|, |Printed(w)| + |Printed(h)|;
      assert Printed(w) == t[..i] && Printed(w') == t'[..i];
      assert Printed(h) == t[i..j] && Printed(h') == t'[i..j];
      assert Printed(c) == t[j..] && Printed(c') == t'[j..];
      DigitsInjective(w, w');
      DigitsInjective(h, h');
      DigitsInjective(c, c');
    }
  }

  /** `n` is printed with k digits. */
  predicate HasDigits(n: nat, k: nat) {
    if k == 0 then n == 0 else Pow10(k - 1) <= n < Pow10(k)
  }

  lemma CountOfDigits(n: nat, k: nat)
    requires HasDigits(n, k)
    ensures |Printed(n)| == k
  {
    DigitCount(n, k);
    if k > 0 {
      DigitCount(n, k - 1);
    }
  }

  lemma PrintedReads(n: nat)
    ensures Reads(Printed(n), n)
  {
    ValueOfDigits(n);
  }

  lemma ThreeParts(a: string, b: string, c: string)
    ensures var s := a + b + c;
            s[..|a|] == a && s[|a|..|a| + |b|] == b && s[|a| + |b|..] == c
  {
  }

  /** Read with the digit counts of width and height, the tail gives them back in this
      order: width, height, colours. */
  lemma TailReadsBack(w: nat, h: nat, c: nat, i: nat, j: nat)
    requires HasDigits(w, i) && HasDigits(h, j)
    ensures var t := Tail(w, h, c);
            i + j <= |t| && Reads(t[..i], w) && Reads(t[i..i + j], h) && Reads(t[i + j..], c)
  {
    CountOfDigits(w, i);
    CountOfDigits(h, j);
    ThreeParts(Printed(w), Printed(h), Printed(c));
    PrintedReads(w);
    PrintedReads(h);
    PrintedReads(c);
  }

  /** A key read from left to right: everything up to one place before its first dot is
      the name, the ten characters around the dot are the quality, and the rest is the tail. */
  lemma KeyReadsBack(name: string, q: nat, w: nat, h: nat, c: nat, i: nat, j: nat)
    requires Free(name, '.') && TENTH <= q <= ONE && HasDigits(w, i) && HasDigits(h, j)
    ensures var key := Key(name, q, w, h, c);
            var dot := IndexOf(key, '.');
            && 0 < dot && dot + 9 + i + j <= |key|
            && key[..dot - 1] == name
            && Reads(key[dot - 1..dot] + key[dot + 1..dot + 9], q)
            && Reads(key[dot + 9..][..i], w)
            && Reads(key[dot + 9..][i..i + j], h)
            && Reads(key[dot + 9..][i + j..], c)
  {
    KeyDot(name, q, w, h, c);
    IndexOfIs(Key(name, q, w, h, c), '.', |name| + 1);
    QualityReadsBack(q);
    TailReadsBack(w, h, c, i, j);
    KeySlices(name, QualityText(q), Tail(w, h, c));
  }

  lemma KeySlices(name: string, text: string, tail: string)
    requires |text| == 10
    ensures var key, dot := name + text + tail, |name| + 1;
            && key[..dot - 1] == name && key[dot + 9..] == tail
            && key[dot - 1..dot] == text[..1] && key[dot + 1..dot + 9] == text[2..]
  {
  }

  lemma OneDigit(a: nat)
    requires 0 < a < 10
    ensures Printed(a) == [Digit(a)]
  {
    assert Digits(a / 10) == "";
  }

  lemma TwoDigits(a: nat, b: nat)
    requires 0 < a < 10 && b < 10
    ensures Printed(10 * a + b) == [Digit(a), Digit(b)]
  {
    OneDigit(a);
    assert (10 * a + b) / 10 == a;
  }

  /** Two different screens can share a key: 12 by 3 and 1 by 23. */
  lemma DifferentDimensionsShareKey(name: string, q: nat, c: int)
    requires q >= TENTH
    ensures Key(name, q, 12, 3, c) == Key(name, q, 1, 23, c)
  {
    TwoDigits(1, 2);
    TwoDigits(2, 3);
    OneDigit(1);
    OneDigit(3);
    var t := Printed(c);
    assert "12" + "3" + t == "1" + "23" + t;
  }

  method ConvertFloatToString(n: nat) returns (res: array<char>)
    requires n >= TENTH
    ensures fresh(res) && res.Length == 11
    ensures res[..] == QualityText(n) + [NUL]
  {
    QualityShape(n);
    res := new char[11];
    var integer := n / ONE;
    var mantissa := n - integer * ONE;
    if integer == 0 {
      res[0] := '0';
    } else {
      Memcpy(res, 0, "1.00000000");
      res[10] := NUL;
      return;
    }
    res[1] := '.';
    var strDec, _ := ConvertToString(mantissa);
    Memcpy(res, 2, strDec[..8]);
    res[10] := NUL;
  }

  method JoinParts(name: string, q: string, w: string, h: string, c: string)
    returns (buf: array<char>)
    ensures fresh(buf)
    ensures buf[..] == name + q + (w + h + c) + [NUL]
  {
    buf := new char[|name| + |q| + |h| + |c| + |w| + 1];
    var len := Append(buf, 0, name);
    len := Append(buf, len, q);
    len := Append(buf, len, w);
    len := Append(buf, len, h);
    len := Append(buf, len, c);
    buf[len] := NUL;
    assert buf[..len] == name + q + (w + h + c);
    assert buf[..] == buf[..len] + [NUL];
  }

  method BuildImageNameCache(name: string, quality: nat, width: int, height: int, colors: int)
    returns (buf: array<char>)
    requires quality >= TENTH
    ensures fresh(buf)
    ensures buf[..] == Key(name, quality, width, height, colors) + [NUL]
  {
    QualityShape(quality);
    var strQuality := ConvertFloatToString(quality);
    var strWidth, _ := ConvertToString(width);
    var strHeight, _ := ConvertToString(height);
    var strColors, _ := ConvertToString(colors);
    var q, w := strQuality[..10], strWidth[..strWidth.Length - 1];
    var h, c := strHeight[..strHeight.Length - 1], strColors[..strColors.Length - 1];
    assert q == QualityText(quality) && w == Printed(width);
    assert h == Printed(height) && c == Printed(colors);
    buf := JoinParts(name, q, w, h, c);
  }
}
