/** `cleanNumber` (src/scrapper.ts:149): delete every non-digit of a table cell
    and read what is left as a decimal number. */
module Amount {

  predicate IsDigit(c: char)
  {
    '0' <= c <= '9'
  }

  predicate AllDigits(s: string)
  {
    forall i :: 0 <= i < |s| ==> IsDigit(s[i])
  }

  function Pow10(n: nat): (p: nat)
    ensures p >= 1
  {
    if n == 0 then 1 else 10 * Pow10(n - 1)
  }

  /** `str.replace(/\D/gi, '')`: the digits of `s`, in order. */
  function Digits(s: string): (ds: string)
    ensures AllDigits(ds)
    ensures |ds| <= |s|
    ensures AllDigits(s) ==> ds == s
  {
    if |s| == 0 then ""
    else if IsDigit(s[0]) then [s[0]] + Digits(s[1..])
    else Digits(s[1..])
  }

  function DigitValue(c: char): (d: nat)
    requires IsDigit(c)
    ensures d < 10
  {
    (c as int) - ('0' as int)
  }

  function DigitChar(d: nat): (c: char)
    requires d < 10
    ensures IsDigit(c) && DigitValue(c) == d
  {
    (d + ('0' as int)) as char
  }

  /** Unary `+` on a digit string: its decimal value, 0 for the empty string. */
  function DecimalValue(ds: string): (n: nat)
    requires AllDigits(ds)
    ensures n < Pow10(|ds|)
  {
    if |ds| == 0 then 0
    else DecimalValue(ds[..|ds| - 1]) * 10 + DigitValue(ds[|ds| - 1])
  }

  /** `cleanNumber`. */
  function CleanNumber(cell: string): (n: nat)
    ensures n < Pow10(|Digits(cell)|)
  {
    DecimalValue(Digits(cell))
  }

  /** The decimal rendering of `n` without separators: the partner `CleanNumber` inverts. */
  function Show(n: nat): (s: string)
    ensures |s| > 0 && AllDigits(s)
  {
    if n < 10 then [DigitChar(n)] else Show(n / 10) + [DigitChar(n % 10)]
  }

  /** Deleting non-digits distributes over concatenation. */
  lemma {:induction false} DigitsAppend(a: string, b: string)
    ensures Digits(a + b) == Digits(a) + Digits(b)
    decreases |a|
  {
    if |a| == 0 {
      assert a + b == b;
    } else {
      assert (a + b)[0] == a[0];
      assert (a + b)[1..] == a[1..] + b;
      DigitsAppend(a[1..], b);
    }
  }

  /** Reading `a + [d]` shifts the value of `a` one decimal place. */
  lemma DecimalValueSnoc(ds: string, c: char)
    requires AllDigits(ds) && IsDigit(c)
    ensures AllDigits(ds + [c])
    ensures DecimalValue(ds + [c]) == DecimalValue(ds) * 10 + DigitValue(c)
  {
    assert (ds + [c])[..|ds|] == ds;
  }

  /** Reading a concatenation of digit strings. */
  lemma {:induction false} DecimalValueAppend(a: string, b: string)
    requires AllDigits(a) && AllDigits(b)
    ensures AllDigits(a + b)
    ensures DecimalValue(a + b) == DecimalValue(a) * Pow10(|b|) + DecimalValue(b)
    decreases |b|
  {
    if |b| == 0 {
      assert a + b == a;
    } else {
      var b' := b[..|b| - 1];
      var c := b[|b| - 1];
      assert b == b' + [c];
      assert a + b == (a + b') + [c];
      DecimalValueAppend(a, b');
      DecimalValueSnoc(a + b', c);
      DecimalValueSnoc(b', c);
      assert Pow10(|b|) == Pow10(|b'|) * 10;
      ShiftOneDigit(DecimalValue(a), Pow10(|b'|), DecimalValue(b'), DigitValue(c));
    }
  }

  lemma ShiftOneDigit(x: int, p: int, y: int, d: int)
    ensures (x * p + y) * 10 + d == x * (p * 10) + (y * 10 + d)
  {
  }

  /** A cell split anywhere reads as the left digits shifted past the right ones. */
  lemma CleanNumberAppend(a: string, b: string)
    ensures CleanNumber(a + b) == CleanNumber(a) * Pow10(|Digits(b)|) + CleanNumber(b)
  {
    DigitsAppend(a, b);
    DecimalValueAppend(Digits(a), Digits(b));
  }

  /** Round trip: reading back the decimal rendering of `n` gives `n`. */
  lemma {:induction false} CleanNumberShow(n: nat)
    ensures CleanNumber(Show(n)) == n
    decreases n
  {
    if n < 10 {
      assert Show(n) == [DigitChar(n)];
      assert Show(n)[..0] == "";
    } else {
      CleanNumberShow(n / 10);
      DecimalValueSnoc(Show(n / 10), DigitChar(n % 10));
    }
  }

  /** Characters that are not digits never change the amount. */
  lemma CleanNumberIgnoresNonDigits(a: string, junk: string, b: string)
    requires forall i :: 0 <= i < |junk| ==> !IsDigit(junk[i])
    ensures CleanNumber(a + junk + b) == CleanNumber(a + b)
  {
    NoDigitsReadsZero(junk);
    DigitsAppend(a + junk, b);
    DigitsAppend(a, junk);
    DigitsAppend(a, b);
    assert Digits(a + junk) == Digits(a);
    assert Digits(a + junk + b) == Digits(a + b);
  }

  /** A cell with no digit at all reads as 0 (`+""` is 0). */
  lemma {:induction false} NoDigitsReadsZero(cell: string)
    requires forall i :: 0 <= i < |cell| ==> !IsDigit(cell[i])
    ensures Digits(cell) == ""
    ensures CleanNumber(cell) == 0
    decreases |cell|
  {
    if |cell| > 0 {
      NoDigitsReadsZero(cell[1..]);
    }
  }

  /** The thousands separator and currency sign of a table cell are dropped: "$1.234" reads 1234. */
  lemma CleanNumberExample()
    ensures CleanNumber("$1.234") == 1234
  {
    DigitsExample();
    DecimalValueExample();
  }

  /** The currency sign and the thousands separator are dropped. */
  lemma DigitsExample()
    ensures Digits("$1.234") == "1234"
  {
    assert Digits("4") == "4";
    assert Digits("34") == "34";
    assert Digits("234") == "234";
    assert Digits(".234") == "234" by { assert ".234"[1..] == "234"; }
    assert Digits("1.234") == "1234" by { assert "1.234"[1..] == ".234"; }
    assert "$1.234"[1..] == "1.234";
  }

  lemma DecimalValueExample()
    ensures DecimalValue("1234") == 1234
  {
    assert DecimalValue("1") == 1 by { assert "1"[..0] == ""; }
    assert DecimalValue("12") == 12 by { assert "12"[..1] == "1"; }
    assert DecimalValue("123") == 123 by { assert "123"[..2] == "12"; }
    assert "1234"[..3] == "123";
  }
}
