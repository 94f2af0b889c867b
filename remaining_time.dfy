/**
 * The `remainingTime` pipe: a count of seconds rendered as `HH:MM`, prefixed
 * with `<days>day` or `<days>days` when at least a day remains.
 */
module RemainingTime {
  import opened Collections

  const SecondsPerDay: nat := 3600 * 24

  predicate IsDigit(c: char) {
    '0' <= c <= '9'
  }

  /** The decimal digit for `d`. */
  function Digit(d: nat): (c: char)
    requires d < 10
    ensures IsDigit(c) && c as int - '0' as int == d
  {
    ('0' as int + d) as char
  }

  /** `${n}` for a whole number: its decimal digits, most significant first. */
  function Decimal(n: nat): (r: string)
    ensures 1 <= |r|
    ensures forall i :: 0 <= i < |r| ==> IsDigit(r[i])
    ensures n < 10 <==> |r| == 1
    ensures 10 <= n < 100 ==> |r| == 2
    decreases n
  {
    if n < 10 then [Digit(n)] else Decimal(n / 10) + [Digit(n % 10)]
  }

  function DigitValue(c: char): (d: nat)
    requires IsDigit(c)
    ensures d < 10
  {
    c as int - '0' as int
  }

  /** The number a string of decimal digits denotes (leading zeros allowed). */
  function DigitsValue(s: string): nat
    requires forall i :: 0 <= i < |s| ==> IsDigit(s[i])
  {
    if s == [] then 0 else DigitsValue(s[..|s| - 1]) * 10 + DigitValue(s[|s| - 1])
  }

  /** Reading the digits back gives the number. */
  lemma {:induction false} DecimalRoundTrip(n: nat)
    ensures DigitsValue(Decimal(n)) == n
    decreases n
  {
    if n >= 10 {
      var r := Decimal(n);
      assert r[..|r| - 1] == Decimal(n / 10);
      DecimalRoundTrip(n / 10);
    }
  }

  /** The digits carry no leading zero, except for the number 0 itself. */
  lemma {:induction false} DecimalCanonical(n: nat)
    ensures Decimal(n)[0] == '0' <==> n == 0
    decreases n
  {
    if n >= 10 {
      DecimalCanonical(n / 10);
      assert Decimal(n)[0] == Decimal(n / 10)[0];
    }
  }

  /** `k` zero characters. */
  function Zeros(k: nat): (r: string)
    ensures |r| == k && forall i :: 0 <= i < k ==> r[i] == '0'
  {
    if k == 0 then "" else "0" + Zeros(k - 1)
  }

  /** Leading zeros do not change the number a digit string denotes. */
  lemma {:induction false} ZerosValue(k: nat, t: string)
    requires forall i :: 0 <= i < |t| ==> IsDigit(t[i])
    ensures DigitsValue(Zeros(k) + t) == DigitsValue(t)
    decreases |t|
  {
    if t == [] {
      assert Zeros(k) + t == Zeros(k);
      ZerosZero(k);
    } else {
      var n := |t| - 1;
      assert (Zeros(k) + t)[..|Zeros(k) + t| - 1] == Zeros(k) + t[..n];
      ZerosValue(k, t[..n]);
    }
  }

  lemma {:induction false} ZerosZero(k: nat)
    ensures DigitsValue(Zeros(k)) == 0
  {
    var z := Zeros(k);
    if k > 0 {
      assert z[..k - 1] == Zeros(k - 1);
      ZerosZero(k - 1);
    }
  }

  /** One more leading zero. */
  lemma ZerosPrepend(k: nat, digits: string)
    ensures "0" + (Zeros(k) + digits) == Zeros(k + 1) + digits
  {
    assert Zeros(k + 1) == "0" + Zeros(k);
  }

  /** `padLeft(number, size)`: the digits, preceded by zeros up to `size` characters. */
  function Padded(number: nat, size: int): (r: string)
    ensures |r| >= size && |r| >= |Decimal(number)|
    ensures forall i :: 0 <= i < |r| ==> IsDigit(r[i])
  {
    var digits := Decimal(number);
    Zeros(if size > |digits| then size - |digits| else 0) + digits
  }

  /** `padLeft`: prefix a zero while the string is shorter than `size`. */
  method PadLeft(number: nat, size: int) returns (s: string)
    ensures s == Padded(number, size)
  {
    s := Decimal(number);
    ghost var digits := s;
    while |s| < size
      invariant |s| >= |digits|
      invariant s == Zeros(|s| - |digits|) + digits
      invariant |s| <= if size > |digits| then size else |digits|
      decreases size - |s|
    {
      ghost var k := |s| - |digits|;
      ZerosPrepend(k, digits);
      s := "0" + s;
    }
    assert |s| - |digits| == if size > |digits| then size - |digits| else 0;
  }

  /**
   * Padding is as long as `size` or the number's digits, whichever is longer,
   * is made of leading zeros then the digits, and leaves a long-enough number
   * as it is.
   */
  lemma PaddedShape(number: nat, size: int)
    ensures var r := Padded(number, size);
      var digits := Decimal(number);
      && |r| == (if size > |digits| then size else |digits|)
      && (forall i :: 0 <= i < |r| - |digits| ==> r[i] == '0')
      && r[|r| - |digits|..] == digits
      && (|digits| >= size ==> r == digits)
  {
    var digits := Decimal(number);
    var k := if size > |digits| then size - |digits| else 0;
    var r := Padded(number, size);
    assert r == Zeros(k) + digits;
    assert r[k..] == digits;
  }

  /** A padded number is all digits and still denotes the number. */
  lemma PaddedValue(number: nat, size: int)
    ensures var r := Padded(number, size);
      && (forall i :: 0 <= i < |r| ==> IsDigit(r[i]))
      && DigitsValue(r) == number
  {
    var digits := Decimal(number);
    var k := if size > |digits| then size - |digits| else 0;
    var r := Padded(number, size);
    assert r == Zeros(k) + digits;
    assert forall i :: 0 <= i < |r| ==> IsDigit(r[i]) by {
      forall i | 0 <= i < |r| ensures IsDigit(r[i]) {
        if i >= k {
          assert r[i] == digits[i - k];
        }
      }
    }
    ZerosValue(k, digits);
    DecimalRoundTrip(number);
  }

  /** The days, hours and minutes the pipe shows for a number of seconds. */
  datatype TimeParts = TimeParts(days: nat, hrs: nat, mnts: nat)

  /**
   * `Math.floor` division into whole days, then hours, then minutes of what
   * remains; leftover seconds are dropped.
   */
  function Decompose(seconds: nat): (r: TimeParts)
    ensures r.hrs < 24 && r.mnts < 60
    ensures var shown := r.days * SecondsPerDay + r.hrs * 3600 + r.mnts * 60;
      shown <= seconds < shown + 60
  {
    var days := seconds / SecondsPerDay;
    var rest := seconds - days * SecondsPerDay;
    var hrs := rest / 3600;
    var mnts := (rest - hrs * 3600) / 60;
    TimeParts(days, hrs, mnts)
  }

  /** `HH:MM` from two-digit padded hours and minutes. */
  function Clock(hrs: nat, mnts: nat): string {
    Padded(hrs, 2) + ":" + Padded(mnts, 2)
  }

  /** The string `getFormattedTime` returns. */
  function FormattedTime(seconds: int): (r: string)
    ensures |r| >= 5
    ensures seconds < 0 ==> r == "progress"
    ensures seconds >= 0 ==> r[|r| - 3] == ':'
  {
    if seconds < 0 then "progress"
    else
      var t := Decompose(seconds);
      TwoDigits(t.hrs);
      TwoDigits(t.mnts);
      if t.days > 0 then Decimal(t.days) + (if t.days > 1 then "days" else "day") + " " + Clock(t.hrs, t.mnts)
      else Clock(t.hrs, t.mnts)
  }

  /** `getFormattedTime`, with its running `seconds` variable. */
  method GetFormattedTime(seconds: int) returns (r: string)
    ensures r == FormattedTime(seconds)
  {
    if seconds < 0 {
      return "progress";
    }
    ghost var t := Decompose(seconds);
    var s := seconds;
    var days := s / (3600 * 24);
    s := s - days * 3600 * 24;
    assert days == t.days && s == seconds - t.days * SecondsPerDay;
    var hrs := s / 3600;
    s := s - hrs * 3600;
    assert hrs == t.hrs;
    var mnts := s / 60;
    assert mnts == t.mnts;
    // The source subtracts the hours a second time here; the result is never read.
    s := s - hrs * 3600;
    var hh := PadLeft(hrs, 2);
    var mm := PadLeft(mnts, 2);
    var clock := hh + ":" + mm;
    assert clock == Clock(t.hrs, t.mnts);
    if days > 0 {
      r := Decimal(days) + (if days > 1 then "days" else "day") + " " + clock;
    } else {
      r := clock;
    }
  }

  /** `getTimeRemainingFromHours`: the formatted time of that many hours. */
  function TimeRemainingFromHours(hours: int): (r: string)
    ensures |r| >= 5
    ensures r == "progress" <==> hours < 0
  {
    ProgressIffNegative(hours * 3600);
    FormattedTime(hours * 3600)
  }

  /**
   * `transform`: empty for a falsy value (absent or zero), the hours path when
   * `hoursOnly`, otherwise the formatted time until the given date, whose
   * distance from now in seconds is passed in as `secondsUntilValue`.
   */
  function Transform(value: Option<int>, hoursOnly: bool, secondsUntilValue: int): (r: string)
    ensures r == "" <==> value.None? || value.value == 0
    ensures value.Some? && value.value != 0 && hoursOnly ==> (r == "progress" <==> value.value < 0)
    ensures value.Some? && value.value != 0 && !hoursOnly ==> (r == "progress" <==> secondsUntilValue < 0)
  {
    ProgressIffNegative(secondsUntilValue);
    if value.None? || value.value == 0 then ""
    else if hoursOnly then TimeRemainingFromHours(value.value)
    else FormattedTime(secondsUntilValue)
  }

  /** Two padded fields below 100 are exactly two characters. */
  lemma TwoDigits(n: nat)
    requires n < 100
    ensures |Padded(n, 2)| == 2
  {
  }

  /** 'progress' comes out exactly for a negative count: every other output holds a ':'. */
  lemma ProgressIffNegative(seconds: int)
    ensures FormattedTime(seconds) == "progress" <==> seconds < 0
  {
    if seconds >= 0 {
      var t := Decompose(seconds);
      var r := FormattedTime(seconds);
      var c := Clock(t.hrs, t.mnts);
      TwoDigits(t.hrs);
      TwoDigits(t.mnts);
      assert c[2] == ':';
      assert r[|r| - 3] == ':';
      assert "progress"[|"progress"| - 3] != ':';
    }
  }

  /**
   * The output layout for a non-negative count: `HH:MM` below a day, then
   * `1day HH:MM`, then `<days>days HH:MM`; the clock is always the last five
   * characters.
   */
  lemma FormatLayout(seconds: nat)
    ensures var t := Decompose(seconds);
      var r := FormattedTime(seconds);
      && |Clock(t.hrs, t.mnts)| == 5
      && (t.days == 0 ==> r == Clock(t.hrs, t.mnts))
      && (t.days == 1 ==> r == "1day " + Clock(t.hrs, t.mnts))
      && (t.days > 1 ==> r == Decimal(t.days) + "days " + Clock(t.hrs, t.mnts))
  {
    var t := Decompose(seconds);
    var c := Clock(t.hrs, t.mnts);
    var r := FormattedTime(seconds);
    assert |c| == 5 by {
      TwoDigits(t.hrs);
      TwoDigits(t.mnts);
    }
    assert t.days == 1 ==> r == "1day " + c by {
      if t.days == 1 {
        assert Decimal(1) == "1";
        assert "1" + "day" + " " == "1day ";
        assert r == ("1" + "day" + " ") + c;
      }
    }
    assert t.days > 1 ==> r == Decimal(t.days) + "days " + c by {
      if t.days > 1 {
        assert "days" + " " == "days ";
        assert r == Decimal(t.days) + ("days" + " ") + c;
      }
    }
  }

  /**
   * The rendered string can be read back: the hours and minutes fields and the
   * day count denote the parts of the decomposition, which account for the
   * seconds to within one minute.
   */
  lemma FormatReadsBack(seconds: nat)
    ensures var t := Decompose(seconds);
      var r := FormattedTime(seconds);
      && |r| >= 5
      && (forall i :: |r| - 5 <= i < |r| && i != |r| - 3 ==> IsDigit(r[i]))
      && DigitsValue(r[|r| - 5..|r| - 3]) == t.hrs
      && r[|r| - 3] == ':'
      && DigitsValue(r[|r| - 2..]) == t.mnts
      && (t.days > 0 ==> r[..|Decimal(t.days)|] == Decimal(t.days) && DigitsValue(Decimal(t.days)) == t.days)
  {
    var t := Decompose(seconds);
    var r := FormattedTime(seconds);
    var c := Clock(t.hrs, t.mnts);
    var prefix := if t.days == 0 then "" else if t.days == 1 then "1day " else Decimal(t.days) + "days ";
    assert r == prefix + c by {
      FormatLayout(seconds);
    }
    ClockReadsBack(r, prefix, t.hrs, t.mnts);
    if t.days > 0 {
      DecimalRoundTrip(t.days);
      assert r[..|Decimal(t.days)|] == Decimal(t.days) by {
        if t.days == 1 {
          assert Decimal(1) == "1";
        } else {
          TakeFront(Decimal(t.days), "days ", c);
        }
      }
    }
  }

  lemma TakeFront(a: string, b: string, c: string)
    ensures ((a + b) + c)[..|a|] == a
  {
    assert forall i :: 0 <= i < |a| ==> ((a + b) + c)[i] == a[i];
  }

  /** The clock at the end of a formatted duration reads back as its hours and minutes. */
  lemma ClockReadsBack(r: string, prefix: string, hrs: nat, mnts: nat)
    requires hrs < 100 && mnts < 100 && r == prefix + Clock(hrs, mnts)
    ensures && |r| >= 5
      && (forall i :: |r| - 5 <= i < |r| && i != |r| - 3 ==> IsDigit(r[i]))
      && DigitsValue(r[|r| - 5..|r| - 3]) == hrs
      && r[|r| - 3] == ':'
      && DigitsValue(r[|r| - 2..]) == mnts
  {
    var hh := Padded(hrs, 2);
    var mm := Padded(mnts, 2);
    TwoDigits(hrs);
    TwoDigits(mnts);
    PaddedValue(hrs, 2);
    PaddedValue(mnts, 2);
    assert r == prefix + (hh + ":" + mm);
    assert r[|r| - 5..|r| - 3] == hh;
    assert r[|r| - 2..] == mm;
    forall i | |r| - 5 <= i < |r| && i != |r| - 3
      ensures IsDigit(r[i])
    {
      if i < |r| - 3 {
        assert r[i] == hh[i - (|r| - 5)];
      } else {
        assert r[i] == mm[i - (|r| - 2)];
      }
    }
  }


  /**
   * The hours-only path: a positive number of hours shows whole days and the
   * remaining hours, with minutes always `00`; a negative number shows
   * 'progress'; zero, like an absent value, shows nothing.
   */
  lemma HoursOnly(hours: int, secondsUntilValue: int)
    ensures hours > 0 ==>
      Transform(Some(hours), true, secondsUntilValue) == FormattedTime(hours * 3600)
      && Decompose(hours * 3600) == TimeParts(hours / 24, hours % 24, 0)
    ensures hours < 0 ==> Transform(Some(hours), true, secondsUntilValue) == "progress"
    ensures hours == 0 ==> Transform(Some(hours), true, secondsUntilValue) == ""
    ensures Transform(None, true, secondsUntilValue) == ""
  {
    if hours > 0 {
      var s := hours * 3600;
      assert s / SecondsPerDay == hours / 24;
      assert s - (hours / 24) * SecondsPerDay == (hours % 24) * 3600;
    }
  }
}
