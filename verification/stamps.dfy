/**
 The fixed-width text stamps of math.go: `Timestamp` ("%02d:%02d:%02d") and
 `Datestamp` ("%04d-%02d-%02d"), built on a model of Go's `%0Nd` verb.
 */
module Stamps {
  import opened Calendar
  import opened Rounding

  /** `gtfs.Time`. */
  datatype Time = Time(hour: Int8, minute: Int8, second: Int8)

  predicate IsDigit(c: char)
  {
    '0' <= c <= '9'
  }

  predicate AllDigits(s: string)
  {
    forall i :: 0 <= i < |s| ==> IsDigit(s[i])
  }

  function DigitChar(d: nat): (c: char)
    requires d < 10
    ensures IsDigit(c)
    ensures DigitValue(c) == d
  {
    (('0' as int) + d) as char
  }

  function DigitValue(c: char): nat
    requires IsDigit(c)
  {
    (c as int) - ('0' as int)
  }

  /** The value of a string of decimal digits; the empty string reads as 0. */
  function Parse(s: string): nat
    requires AllDigits(s)
  {
    if s == [] then 0 else Parse(s[..|s| - 1]) * 10 + DigitValue(s[|s| - 1])
  }

  /** The decimal digits of n without leading zeros, as Go prints a non-negative int. */
  function Decimal(n: nat): (s: string)
    ensures 1 <= |s|
    ensures AllDigits(s)
    ensures Parse(s) == n
    ensures n < Pow10(|s|)
    ensures |s| > 1 ==> Pow10(|s| - 1) <= n
  {
    if n < 10 then [DigitChar(n)]
    else
      var s := Decimal(n / 10) + [DigitChar(n % 10)];
      assert s[..|s| - 1] == Decimal(n / 10);
      s
  }

  /** The printed number fits in w characters exactly when it is below 10^w. */
  lemma DecimalFits(n: nat, w: nat)
    requires w >= 1
    ensures |Decimal(n)| <= w <==> n < Pow10(w)
  {
    var k := |Decimal(n)|;
    if k <= w {
      Pow10Monotone(k, w);
    } else {
      Pow10Monotone(w, k - 1);
    }
  }

  lemma {:induction false} Pow10Monotone(a: nat, b: nat)
    requires a <= b
    ensures Pow10(a) <= Pow10(b)
  {
    if a < b {
      Pow10Monotone(a, b - 1);
    }
  }

  function Zeros(k: nat): (s: string)
    ensures |s| == k
    ensures AllDigits(s)
  {
    if k == 0 then "" else Zeros(k - 1) + "0"
  }

  /** Leading zeros do not change the value of a digit string. */
  lemma {:induction false} ParseZeros(k: nat, s: string)
    requires AllDigits(s)
    ensures Parse(Zeros(k) + s) == Parse(s)
  {
    var z := Zeros(k) + s;
    if s == [] {
      assert z == Zeros(k);
      if k > 0 {
        assert z[..|z| - 1] == Zeros(k - 1) + [];
        ParseZeros(k - 1, []);
      }
    } else {
      assert z[..|z| - 1] == Zeros(k) + s[..|s| - 1];
      ParseZeros(k, s[..|s| - 1]);
    }
  }

  /** Digits left-padded with zeros to at least w characters. */
  function PadDigits(digits: string, w: nat): (s: string)
    requires AllDigits(digits)
    ensures |s| == if |digits| < w then w else |digits|
    ensures AllDigits(s)
    ensures Parse(s) == Parse(digits)
  {
    var k := if |digits| < w then w - |digits| else 0;
    ParseZeros(k, digits);
    Zeros(k) + digits
  }

  /**
   Go's `%0<w>d` of an int: the digits left-padded with zeros to width w, with
   a leading '-' for a negative value that takes one of the w places.
   */
  function ZeroPad(n: int, w: nat): (s: string)
    requires w >= 1
    ensures 0 <= n ==> AllDigits(s) && Parse(s) == n
    ensures 0 <= n ==> |s| == if |Decimal(n)| < w then w else |Decimal(n)|
    ensures 0 <= n < Pow10(w) ==> |s| == w
    ensures n < 0 ==> 1 <= |s| && s[0] == '-' && AllDigits(s[1..]) && Parse(s[1..]) == -n
    ensures n < 0 ==> |s| == if |Decimal(-n)| + 1 < w then w else |Decimal(-n)| + 1
  {
    if n < 0 then
      var s := "-" + PadDigits(Decimal(-n), w - 1);
      assert s[1..] == PadDigits(Decimal(-n), w - 1);
      s
    else
      DecimalFits(n, w);
      PadDigits(Decimal(n), w)
  }

  /** `Timestamp`: "HH:MM:SS". */
  function Timestamp(t: Time): (s: string)
    ensures 0 <= t.hour < 100 && 0 <= t.minute < 100 && 0 <= t.second < 100 ==>
      && |s| == 8 && s[2] == ':' && s[5] == ':'
      && AllDigits(s[..2]) && Parse(s[..2]) == t.hour
      && AllDigits(s[3..5]) && Parse(s[3..5]) == t.minute
      && AllDigits(s[6..]) && Parse(s[6..]) == t.second
  {
    var h, m, c := ZeroPad(t.hour, 2), ZeroPad(t.minute, 2), ZeroPad(t.second, 2);
    var s := h + ":" + m + ":" + c;
    assert 0 <= t.hour < 100 && 0 <= t.minute < 100 && 0 <= t.second < 100 ==>
      s[..2] == h && s[3..5] == m && s[6..] == c;
    s
  }

  /** `Datestamp`: "YYYY-MM-DD". */
  function Datestamp(d: Date): (s: string)
    ensures 0 <= d.year < 10000 && 0 <= d.month < 100 && 0 <= d.day < 100 ==>
      && |s| == 10 && s[4] == '-' && s[7] == '-'
      && AllDigits(s[..4]) && Parse(s[..4]) == d.year
      && AllDigits(s[5..7]) && Parse(s[5..7]) == d.month
      && AllDigits(s[8..]) && Parse(s[8..]) == d.day
    ensures d.year < 0 ==> 0 < |s| && s[0] == '-'
  {
    var y, m, a := ZeroPad(d.year, 4), ZeroPad(d.month, 2), ZeroPad(d.day, 2);
    var s := y + "-" + m + "-" + a;
    assert 0 <= d.year < 10000 && 0 <= d.month < 100 && 0 <= d.day < 100 ==>
      s[..4] == y && s[5..7] == m && s[8..] == a;
    s
  }

  /** A five-digit year overflows the four-character field instead of being cut. */
  lemma DatestampWidensForLargeYears()
    ensures |Datestamp(Date(12024, 1, 2))| == 11
  {
    var y := Decimal(12024);
    assert |y| == 5 by {
      DecimalFits(12024, 5);
      DecimalFits(12024, 4);
    }
  }
}
