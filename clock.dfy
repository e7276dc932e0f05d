/**
 * formatTime: elapsed seconds as "mm:ss", minutes and seconds each written
 * in decimal and padded on the left with '0' to two characters.
 */
module Clock {

  predicate IsDigit(ch: char) {
    '0' <= ch <= '9'
  }

  predicate AllDigits(s: string) {
    forall k :: 0 <= k < |s| ==> IsDigit(s[k])
  }

  function DigitChar(d: nat): char
    requires d < 10
  {
    ['0', '1', '2', '3', '4', '5', '6', '7', '8', '9'][d]
  }

  /** `n.toString()` for a non-negative integer: its decimal digits, no leading zero. */
  function DecimalString(n: nat): (s: string)
    ensures |s| >= 1 && AllDigits(s)
    ensures n < 10 <==> |s| == 1
    ensures 10 <= n < 100 ==> |s| == 2
  {
    if n < 10 then [DigitChar(n)] else DecimalString(n / 10) + [DigitChar(n % 10)]
  }

  /** The number a string of decimal digits denotes (leading zeros allowed). */
  function DecimalValue(s: string): nat
    requires AllDigits(s)
  {
    if s == [] then 0 else 10 * DecimalValue(s[..|s| - 1]) + (s[|s| - 1] - '0') as nat
  }

  /** `s.padStart(2, '0')`. */
  function PadStart2(s: string): (r: string)
    ensures |r| == if |s| < 2 then 2 else |s|
  {
    if |s| == 0 then "00" else if |s| == 1 then ['0'] + s else s
  }

  /** formatTime(s) for the (never negative) seconds of the timer. */
  function FormatTime(s: nat): (t: string)
    ensures |t| >= 5 && t[|t| - 3] == ':'
    ensures s < 6000 ==> |t| == 5
  {
    PadStart2(DecimalString(s / 60)) + ":" + PadStart2(DecimalString(s % 60))
  }

  lemma {:induction false} DecimalRoundTrip(n: nat)
    ensures DecimalValue(DecimalString(n)) == n
  {
    if n >= 10 {
      DecimalRoundTrip(n / 10);
      var s := DecimalString(n);
      assert s[..|s| - 1] == DecimalString(n / 10);
    }
  }

  /** Padding with zeros keeps the value. */
  lemma PadKeepsValue(s: string)
    requires AllDigits(s)
    ensures AllDigits(PadStart2(s)) && DecimalValue(PadStart2(s)) == DecimalValue(s)
  {
    if |s| == 1 {
      assert PadStart2(s)[..1] == "0";
      assert DecimalValue("0") == 0;
    }
  }

  /** The parts of `m + ":" + sec` around the colon, for a two-character `sec`. */
  lemma AroundColon(m: string, sec: string)
    requires |sec| == 2
    ensures var t := m + ":" + sec;
      |t| == |m| + 3 && t[|t| - 3] == ':' && t[..|t| - 3] == m && t[|t| - 2..] == sec
  {
  }

  /**
   * Reading the minutes before the colon and the two-digit seconds after it
   * gives back the elapsed seconds; below 100 minutes the string is exactly
   * five characters.
   */
  lemma FormatTimeRoundTrip(s: nat)
    ensures var t := FormatTime(s);
      && |t| >= 5 && t[|t| - 3] == ':'
      && AllDigits(t[..|t| - 3]) && AllDigits(t[|t| - 2..])
      && DecimalValue(t[..|t| - 3]) * 60 + DecimalValue(t[|t| - 2..]) == s
      && DecimalValue(t[|t| - 2..]) < 60
      && (s < 6000 ==> |t| == 5)
  {
    var m := PadStart2(DecimalString(s / 60));
    var sec := PadStart2(DecimalString(s % 60));
    AroundColon(m, sec);
    DecimalRoundTrip(s / 60);
    DecimalRoundTrip(s % 60);
    PadKeepsValue(DecimalString(s / 60));
    PadKeepsValue(DecimalString(s % 60));
  }
}
