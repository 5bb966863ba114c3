/**
 * The HUD text: the time of day as a 24-hour "HH:MM" clock, the day
 * counter label and the Glimmer balance label.
 */
module GameUI {
  import opened Wrappers
  import opened Text
  import GameTime
  import Currency
  import Utils

  /** A day length of 0 is replaced by 1 before any division. */
  function EffectiveDayLength(dayLength: real): (l: real)
    ensures l != 0.0
    ensures dayLength != 0.0 ==> l == dayLength
    ensures dayLength >= 0.0 ==> l > 0.0
  {
    if dayLength == 0.0 then 1.0 else dayLength
  }

  /** Rounding toward zero, the way C# rounds the quotient of a float remainder. */
  function Truncate(r: real): (n: int)
    ensures r >= 0.0 ==> n as real <= r < n as real + 1.0
    ensures r < 0.0 ==> n as real - 1.0 < r <= n as real
  {
    if r >= 0.0 then r.Floor else -((-r).Floor)
  }

  /**
   * C#'s float % operator: the remainder of a truncated division, which
   * keeps the sign of the dividend (unlike a Euclidean remainder).
   */
  function FloatRemainder(a: real, b: real): (r: real)
    requires b != 0.0
    ensures b > 0.0 && a >= 0.0 ==> 0.0 <= r < b
    ensures b > 0.0 && a < 0.0 ==> -b < r <= 0.0
  {
    var n := Truncate(a / b) as real;
    TruncatedRemainderBounds(a, b, n);
    a - b * n
  }

  /** Hours and minutes shown on the clock. */
  datatype ClockReading = ClockReading(hours: int, minutes: int)

  /**
   * UpdateTimeUI's arithmetic: the time within the day as a fraction of the
   * day, scaled to 24 hours, floored; the minutes are the floored sixtieths
   * of what is left of the hour.
   */
  function ReadClock(currentDayTime: real, dayLength: real): (r: ClockReading)
    ensures var l := EffectiveDayLength(dayLength);
            var h24 := FloatRemainder(currentDayTime, l) / l * 24.0;
            r.hours as real <= h24 < r.hours as real + 1.0
    ensures var l := EffectiveDayLength(dayLength);
            var h24 := FloatRemainder(currentDayTime, l) / l * 24.0;
            var m60 := (h24 - r.hours as real) * 60.0;
            r.minutes as real <= m60 < r.minutes as real + 1.0
  {
    var l := EffectiveDayLength(dayLength);
    var normalized := FloatRemainder(currentDayTime, l) / l;
    var hours := (normalized * 24.0).Floor;
    var minutes := ((normalized * 24.0 - hours as real) * 60.0).Floor;
    ClockReading(hours, minutes)
  }

  /** Two decimal digits of n, with a leading zero below 10. */
  function Pad2(n: nat): (s: string)
    ensures |s| >= 2 && AllDigits(s)
  {
    if n < 10 then "0" + NatString(n) else NatString(n)
  }

  /** The custom format "00": at least two digits, a minus sign before negative values. */
  function Format00(n: int): (s: string)
    ensures |s| >= 2
    ensures n >= 0 ==> AllDigits(s)
    ensures n < 0 ==> |s| >= 3 && s[0] == '-' && AllDigits(s[1..])
  {
    if n < 0 then "-" + Pad2(-n) else Pad2(n)
  }

  /**
   * The clock text, $"{hours:00}:{minutes:00}". For a non-negative time and
   * day length it is "HH:MM": five characters, a colon in the middle, and
   * two-digit fields that read back as the hours and the minutes.
   */
  function TimeText(currentDayTime: real, dayLength: real): (s: string)
    ensures |s| >= 5
    ensures currentDayTime >= 0.0 && dayLength >= 0.0 ==>
      var c := ReadClock(currentDayTime, dayLength);
      && |s| == 5 && s[2] == ':' && AllDigits(s[0..2]) && AllDigits(s[3..5])
      && DigitsValue(s[0..2]) == c.hours && DigitsValue(s[3..5]) == c.minutes
  {
    var c := ReadClock(currentDayTime, dayLength);
    var s := Format00(c.hours) + ":" + Format00(c.minutes);
    if currentDayTime >= 0.0 && dayLength >= 0.0 then
      ClockInRange(currentDayTime, dayLength);
      Pad2ReadsBack(c.hours);
      Pad2ReadsBack(c.minutes);
      assert s[0..2] == Pad2(c.hours);
      assert s[3..5] == Pad2(c.minutes);
      s
    else
      s
  }

  /** The day counter label: "Day:" followed by text int.TryParse reads back as the counter. */
  function DayLabel(clock: GameTime.Clock): (s: string)
    ensures |s| > 4 && s[..4] == "Day:"
    ensures Utils.IsInt32(clock.dayCounter) ==> Utils.TryParseInt(s[4..]) == Some(clock.dayCounter)
  {
    var s := "Day:" + DecimalString(clock.dayCounter);
    assert s[4..] == DecimalString(clock.dayCounter);
    if Utils.IsInt32(clock.dayCounter) then
      Utils.ParseDecimalRoundTrip(clock.dayCounter, 0);
      s
    else
      s
  }

  /** The Glimmer balance label: "Glimmers:" followed by text int.TryParse reads back as the balance. */
  function GlimmerLabel(wallet: Currency.Wallet): (s: string)
    ensures |s| > 9 && s[..9] == "Glimmers:"
    ensures Utils.IsInt32(wallet.glimmers) ==> Utils.TryParseInt(s[9..]) == Some(wallet.glimmers)
  {
    var s := "Glimmers:" + DecimalString(wallet.glimmers);
    assert s[9..] == DecimalString(wallet.glimmers);
    if Utils.IsInt32(wallet.glimmers) then
      Utils.ParseDecimalRoundTrip(wallet.glimmers, 0);
      s
    else
      s
  }

  // ----- Properties -----

  /** A zero day length reads the clock exactly as a day length of 1. */
  lemma ZeroDayLengthReadsAsOne(currentDayTime: real)
    ensures ReadClock(currentDayTime, 0.0) == ReadClock(currentDayTime, 1.0)
    ensures TimeText(currentDayTime, 0.0) == TimeText(currentDayTime, 1.0)
  {
  }

  /** The bounds of a - b·n for n the truncated quotient a / b, by the sign of a. */
  lemma TruncatedRemainderBounds(a: real, b: real, n: real)
    requires b != 0.0 && n == Truncate(a / b) as real
    ensures b > 0.0 && a >= 0.0 ==> 0.0 <= a - b * n < b
    ensures b > 0.0 && a < 0.0 ==> -b < a - b * n <= 0.0
  {
    if b > 0.0 && a >= 0.0 {
      BelowQuotient(a, b, n);
      AboveQuotient(a, b, n + 1.0);
      AddOne(b, n);
    } else if b > 0.0 && a < 0.0 {
      AboveOrAtQuotient(a, b, n);
      BelowQuotientStrict(a, b, n - 1.0);
      AddOne(b, n - 1.0);
    }
  }

  lemma BelowQuotient(a: real, l: real, x: real)
    requires l > 0.0 && x <= a / l
    ensures l * x <= a
  {
    var q := a / l;
    MultiplyMonotone(l, x, q);
  }

  lemma BelowQuotientStrict(a: real, l: real, x: real)
    requires l > 0.0 && x < a / l
    ensures l * x < a
  {
    var q := a / l;
    MultiplyStrict(l, x, q);
  }

  lemma AboveQuotient(a: real, l: real, x: real)
    requires l > 0.0 && a / l < x
    ensures a < l * x
  {
    var q := a / l;
    MultiplyStrict(l, q, x);
  }

  lemma AboveOrAtQuotient(a: real, l: real, x: real)
    requires l > 0.0 && a / l <= x
    ensures a <= l * x
  {
    var q := a / l;
    MultiplyMonotone(l, q, x);
  }

  /** A time already inside the day is its own remainder. */
  lemma RemainderWithinDay(a: real, l: real)
    requires 0.0 <= a < l
    ensures FloatRemainder(a, l) == a
  {
    QuotientInUnit(a, l);
  }

  lemma AddOne(l: real, x: real)
    ensures l * (x + 1.0) == l * x + l
  {
  }

  lemma MultiplyMonotone(l: real, x: real, y: real)
    requires l > 0.0 && x <= y
    ensures l * x <= l * y
  {
    var d := y - x;
    var ld := l * d;
    assert ld >= 0.0;
    assert l * y == l * x + ld;
  }

  lemma MultiplyStrict(l: real, x: real, y: real)
    requires l > 0.0 && x < y
    ensures l * x < l * y
  {
    var d := y - x;
    var ld := l * d;
    assert ld > 0.0;
    assert l * y == l * x + ld;
  }

  /** For a non-negative time and day length the clock shows 00:00 to 23:59. */
  lemma ClockInRange(currentDayTime: real, dayLength: real)
    requires currentDayTime >= 0.0 && dayLength >= 0.0
    ensures var c := ReadClock(currentDayTime, dayLength);
            0 <= c.hours <= 23 && 0 <= c.minutes <= 59
  {
    var l := EffectiveDayLength(dayLength);
    var rem := FloatRemainder(currentDayTime, l);
    var normalized := rem / l;
    QuotientInUnit(rem, l);
    var h24 := normalized * 24.0;
    var hours := h24.Floor;
    assert 0 <= hours <= 23;
    var frac := h24 - hours as real;
    assert 0.0 <= frac < 1.0;
    var minutes := (frac * 60.0).Floor;
    assert 0 <= minutes <= 59;
  }

  /** A quotient of a value in [0, l) by l lies in [0, 1). */
  lemma QuotientInUnit(x: real, l: real)
    requires l > 0.0 && 0.0 <= x < l
    ensures 0.0 <= x / l < 1.0
  {
    MultiplyQuotient(x, l);
    UnitFromProduct(l, x / l, x);
  }

  /** A factor q with l * q in [0, l) lies in [0, 1). */
  lemma UnitFromProduct(l: real, q: real, x: real)
    requires l > 0.0 && 0.0 <= x < l && l * q == x
    ensures 0.0 <= q < 1.0
  {
    if q < 0.0 {
      MultiplyStrict(l, q, 0.0);
    } else if q >= 1.0 {
      MultiplyMonotone(l, 1.0, q);
    }
  }

  /** Multiplying a quotient by its divisor gives the dividend back. */
  lemma MultiplyQuotient(x: real, l: real)
    requires l != 0.0
    ensures l * (x / l) == x
  {
  }

  /** Pad2 of a number below 100 is two digits that read back as the number. */
  lemma Pad2ReadsBack(n: nat)
    requires n < 100
    ensures |Pad2(n)| == 2 && DigitsValue(Pad2(n)) == n
  {
    NatStringValue(n);
    if n < 10 {
      LeadingZeroValue(NatString(n));
    } else {
      assert NatString(n) == NatString(n / 10) + [DigitChar(n % 10)];
    }
  }

  /** The day label is "Day:" followed by text that parses back to the counter. */
  lemma DayLabelReadsBack(clock: GameTime.Clock, default: int)
    requires Utils.IsInt32(clock.dayCounter)
    ensures var s := DayLabel(clock);
            s[..4] == "Day:" && Utils.ParseInt(s[4..], default) == clock.dayCounter
  {
    var s := DayLabel(clock);
    assert s[4..] == DecimalString(clock.dayCounter);
    Utils.ParseDecimalRoundTrip(clock.dayCounter, default);
  }

  /** The Glimmer label is "Glimmers:" followed by text that parses back to the balance. */
  lemma GlimmerLabelReadsBack(wallet: Currency.Wallet, default: int)
    requires Utils.IsInt32(wallet.glimmers)
    ensures var s := GlimmerLabel(wallet);
            s[..9] == "Glimmers:" && Utils.ParseInt(s[9..], default) == wallet.glimmers
  {
    var s := GlimmerLabel(wallet);
    assert s[9..] == DecimalString(wallet.glimmers);
    Utils.ParseDecimalRoundTrip(wallet.glimmers, default);
  }
}
