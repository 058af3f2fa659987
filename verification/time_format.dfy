/**
 * `formatTime`: a number of seconds as minutes, a colon, and the remaining
 * seconds padded to two digits (`75` is `1:15`, `5` is `0:05`).
 */
module TimeFormat {
  import opened Options

  predicate IsDigit(c: char) { '0' <= c <= '9' }

  function Digit(d: nat): (c: char)
    requires d < 10
    ensures IsDigit(c)
  {
    (('0' as int) + d) as char
  }

  function DigitValue(c: char): nat
    requires IsDigit(c)
  {
    c as int - '0' as int
  }

  /** `n.toString()` for a natural number: decimal, no leading zeros. */
  function Decimal(n: nat): (s: string)
    ensures |s| >= 1
    ensures forall i :: 0 <= i < |s| ==> IsDigit(s[i])
    ensures (|s| == 1) == (n < 10)
    ensures s[0] == '0' <==> n == 0
  {
    if n < 10 then [Digit(n)] else Decimal(n / 10) + [Digit(n % 10)]
  }

  /** `toString().padStart(2, '0')` for a value below 100. */
  function Pad2(n: nat): (s: string)
    requires n < 100
    ensures |s| == 2
    ensures forall i :: 0 <= i < 2 ==> IsDigit(s[i])
  {
    if n < 10 then "0" + Decimal(n) else Decimal(n)
  }

  /** The value of a string of decimal digits. */
  function DigitsValue(s: string): nat
    requires forall i :: 0 <= i < |s| ==> IsDigit(s[i])
  {
    if |s| == 0 then 0 else 10 * DigitsValue(s[..|s| - 1]) + DigitValue(s[|s| - 1])
  }

  /**
   * `${mins}:${secs}`: the whole minutes without leading zeros, a colon,
   * and the remaining seconds as two digits.
   */
  function FormatTime(seconds: nat): (s: string)
    ensures |s| >= 4 && s[|s| - 3] == ':'
    ensures forall i :: 0 <= i < |s| && i != |s| - 3 ==> IsDigit(s[i])
    ensures DigitsValue(s[..|s| - 3]) == seconds / 60
    ensures DigitsValue(s[|s| - 2..]) == seconds % 60
    ensures |s| > 4 ==> s[0] != '0'
  {
    var mins, secs := Decimal(seconds / 60), Pad2(seconds % 60);
    DecimalValue(seconds / 60);
    Pad2Value(seconds % 60);
    var s := mins + ":" + secs;
    assert s[..|s| - 3] == mins;
    assert s[|s| - 2..] == secs;
    s
  }

  /**
   * Reading a displayed time back as a number of seconds: minutes without
   * leading zeros, a colon, and two digits of seconds below sixty.
   */
  predicate WellShaped(s: string) {
    && |s| >= 4 && s[|s| - 3] == ':'
    && (forall i :: 0 <= i < |s| && i != |s| - 3 ==> IsDigit(s[i]))
    && (|s| == 4 || s[0] != '0')
    && DigitsValue(s[|s| - 2..]) < 60
  }

  function ParseTime(s: string): (r: Option<nat>)
    ensures r.Some? <==> WellShaped(s)
  {
    if WellShaped(s) then Some(60 * DigitsValue(s[..|s| - 3]) + DigitsValue(s[|s| - 2..]))
    else None
  }

  lemma {:induction false} DecimalValue(n: nat)
    ensures DigitsValue(Decimal(n)) == n
  {
    if n >= 10 {
      DecimalValue(n / 10);
      var s := Decimal(n);
      assert s[..|s| - 1] == Decimal(n / 10);
    }
  }

  lemma Pad2Value(n: nat)
    requires n < 100
    ensures DigitsValue(Pad2(n)) == n
  {
    DecimalValue(n);
    if n < 10 {
      var s := Pad2(n);
      assert s[..1] == "0";
      assert DigitsValue("0") == 10 * DigitsValue("") + 0;
    }
  }

  /** The displayed time determines the number of seconds. */
  lemma FormatTimeRoundTrip(seconds: nat)
    ensures ParseTime(FormatTime(seconds)) == Some(seconds)
  {
  }

  /** Different durations are shown differently. */
  lemma FormatTimeInjective(a: nat, b: nat)
    requires FormatTime(a) == FormatTime(b)
    ensures a == b
  {
    FormatTimeRoundTrip(a);
    FormatTimeRoundTrip(b);
  }

  /** A digit string that starts with a non-zero digit has a non-zero value. */
  lemma {:induction false} LeadingDigitPositive(t: string)
    requires |t| >= 1 && forall i :: 0 <= i < |t| ==> IsDigit(t[i])
    requires t[0] != '0'
    ensures DigitsValue(t) >= 1
  {
    if |t| > 1 {
      LeadingDigitPositive(t[..|t| - 1]);
    }
  }

  /** Decimal digits without a leading zero are the decimal text of their value. */
  lemma {:induction false} DecimalOfValue(t: string)
    requires |t| >= 1 && forall i :: 0 <= i < |t| ==> IsDigit(t[i])
    requires |t| == 1 || t[0] != '0'
    ensures Decimal(DigitsValue(t)) == t
    decreases |t|
  {
    var init, c := t[..|t| - 1], t[|t| - 1];
    assert Digit(DigitValue(c)) == c;
    if |t| == 1 {
      assert DigitsValue(t) == 10 * DigitsValue(init) + DigitValue(c);
      assert init == [];
    } else {
      LeadingDigitPositive(init);
      DecimalOfValue(init);
      assert t == init + [c];
    }
  }

  /** Two digits below sixty are the padded text of their value. */
  lemma PadOfValue(t: string)
    requires |t| == 2 && forall i :: 0 <= i < 2 ==> IsDigit(t[i])
    requires DigitsValue(t) < 60
    ensures Pad2(DigitsValue(t)) == t
  {
    var d0, d1 := t[0], t[1];
    assert t[..1] == [d0];
    assert DigitsValue(t) == 10 * DigitValue(d0) + DigitValue(d1);
    assert Digit(DigitValue(d0)) == d0 && Digit(DigitValue(d1)) == d1;
    if d0 == '0' {
      assert Pad2(DigitsValue(t)) == "0" + [Digit(DigitValue(d1))];
    } else {
      assert Decimal(DigitsValue(t) / 10) == [d0];
    }
  }

  /** Every text that reads as a time is how that time is displayed. */
  lemma ParseTimeFormats(s: string)
    requires ParseTime(s).Some?
    ensures FormatTime(ParseTime(s).value) == s
  {
    var mins, secs := s[..|s| - 3], s[|s| - 2..];
    var n := ParseTime(s).value;
    DecimalOfValue(mins);
    PadOfValue(secs);
    assert n / 60 == DigitsValue(mins) && n % 60 == DigitsValue(secs);
    assert s == mins + ":" + secs;
  }

  /**
   * Seventy-five seconds are shown only as `1:15`: a seconds field of
   * sixty or more, or minutes with a leading zero, do not read as a time.
   */
  lemma ParseTimeExample()
    ensures ParseTime("0:75").None?
    ensures ParseTime("01:15").None?
    ensures ParseTime("1:15") == Some(75)
    ensures FormatTime(75) == "1:15"
  {
    var s := "1:15";
    assert "0:75"[2..] == "75" && "75"[..1] == "7";
    assert DigitsValue("7") == 10 * DigitsValue([]) + 7;
    assert DigitsValue("75") == 75;
    assert s[..1] == "1" && s[2..] == "15" && "15"[..1] == "1";
    assert DigitsValue("1") == 10 * DigitsValue([]) + 1;
    assert DigitsValue("15") == 15;
    assert ParseTime(s) == Some(75);
    ParseTimeFormats(s);
  }
}
