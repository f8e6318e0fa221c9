/** What ROW's text says of each value, place by place (row/ROW.t, section 5; row/text.go). */
module RowMeaning {
  import opened Bytes
  import opened Row
  import opened RowText
  import opened RowDigits
  import opened RowTokens
  import opened RowTimes
  import Civil

  // ---------- whole numbers ----------

  lemma {:induction false} NoLeadingZero(n: nat)
    ensures |Digits(n)| > 1 ==> Digits(n)[0] != 48
    decreases n
  {
    if n >= 10 {
      NoLeadingZero(Tenth(n));
      assert Digits(n)[0] == Digits(Tenth(n))[0];
      if Tenth(n) < 10 { assert Digits(Tenth(n)) == [48 + Tenth(n)]; }
    }
  }

  // An int: a minus if it is negative, and its digits, no zero leading.
  lemma {:induction false} IntSays(n: int) returns (whole: Text)
    ensures FormatInt(n) == (if n < 0 then [45] else []) + whole
    ensures AllDigits(whole) && ValueOf(whole) == (if n < 0 then -n else n) && (|whole| > 1 ==> whole[0] != 48)
  {
    whole := Digits(Abs(n));
    DigitsAre(Abs(n));
    NoLeadingZero(Abs(n));
  }

  // A decimal: digits, a point, and as many digits as its scale; without the point they are the
  // mantissa, so the number is the mantissa by ten to the scale. A zero leads only before the point.
  lemma {:induction false} DecimalSays(n: int, scale: nat) returns (whole: Text, part: Text)
    ensures FormatDecimal(n, scale) == (if n < 0 then [45] else []) + whole + [46] + part
    ensures |part| == scale && AllDigits(whole + part) && ValueOf(whole + part) == if n < 0 then -n else n
    ensures whole != [] && (|whole| > 1 ==> whole[0] != 48)
  {
    var s := Mantissa(Abs(n), scale);
    whole, part := s[..|s| - scale], s[|s| - scale..];
    MantissaIs(Abs(n), scale);
    NoLeadingZero(Abs(n));
    assert whole + part == s;
  }

  // ---------- dates and times ----------

  // A date: four digits of the year, two of the month, two of the day.
  lemma {:induction false} DateSays(n: int)
    requires MIN_DAY <= n <= MAX_DAY
    ensures var t := FormatDate(n);
            && |t| == 10 && t[4] == 45 && t[7] == 45
            && AllDigits(t[..4]) && AllDigits(t[5..7]) && AllDigits(t[8..10])
            && Civil.CivilFromDays(n) == Civil.Date(ValueOf(t[..4]), ValueOf(t[5..7]), ValueOf(t[8..10]))
  {
    var date := Civil.CivilFromDays(n);
    Civil.YearBounds(n);
    PadIs(date.y, 4);
    PadIs(date.m, 2);
    PadIs(date.d, 2);
    DateParts(Pad(date.y, 4), Pad(date.m, 2), Pad(date.d, 2), FormatDate(n));
    assert Shaped(FormatDate(n), DATE) && DATE[4] == 45 && DATE[7] == 45;
  }

  // What a time of day comes to: hours, minutes, seconds and thousandths, each in its place.
  ghost predicate Clock(t: Text, h: nat, m: nat, s: nat, ms: nat) {
    && |t| == 12 && t[2] == 58 && t[5] == 58 && t[8] == 46
    && AllDigits(t[..2]) && AllDigits(t[3..5]) && AllDigits(t[6..8]) && AllDigits(t[9..12])
    && ValueOf(t[..2]) == h && ValueOf(t[3..5]) == m && ValueOf(t[6..8]) == s && ValueOf(t[9..12]) == ms
  }

  lemma {:induction false} ClockSays(h: nat, m: nat, s: nat, ms: nat)
    requires h < 24 && m < 60 && s < 60 && ms < 1000
    ensures Clock(TimeText(h, m, s, ms), h, m, s, ms)
  {
    var t := TimeText(h, m, s, ms);
    PadIs(h, 2);
    PadIs(m, 2);
    PadIs(s, 2);
    assert Ten(3) == 1000;
    PadIs(ms, 3);
    TimeParts(Pad(h, 2), Pad(m, 2), Pad(s, 2), Pad(ms, 3), t);
    assert Shaped(t, TIME) && TIME[2] == 58 && TIME[5] == 58 && TIME[8] == 46;
  }

  // A time of day: its milliseconds after midnight as a clock shows them.
  lemma {:induction false} TimeSays(n: nat) returns (h: nat, m: nat, s: nat, ms: nat)
    requires n <= MAX_TIME
    ensures Clock(FormatTime(n), h, m, s, ms) && h < 24 && m < 60 && s < 60 && ms < 1000
    ensures 3600000 * h + 60000 * m + 1000 * s + ms == n
  {
    h, m, s, ms := Over(n, 3600000), Mod(Over(n, 60000), 60), Mod(Over(n, 1000), 60), Mod(n, 1000);
    ClockIs(n);
    ClockSays(h, m, s, ms);
  }

  // A datetime: the date of its day, a T, the time within the day, and a Z.
  lemma {:induction false} DatetimeSays(n: int) returns (day: int, ms: nat)
    requires MIN_DATETIME <= n <= MAX_DATETIME
    ensures n == 86400000 * day + ms && ms < 86400000 && MIN_DAY <= day <= MAX_DAY && ms <= MAX_TIME
    ensures var t := FormatDatetime(n);
            |t| == 24 && t[..10] == FormatDate(day) && t[10] == 84 && t[11..23] == FormatTime(ms) && t[23] == 90
  {
    day, ms := DayOf(n), InDay(n);
    DaysOf(n);
    FormatDateReads(day);
    FormatTimeReads(ms);
    BothShaped(FormatDate(day), FormatTime(ms), FormatDatetime(n));
  }

  // ---------- durations ----------

  // A part of a duration: digits and a unit, or nothing for none.
  function UnitText(digits: Text, unit: byte): Text { if digits == [] then [] else digits + [unit] }

  // A duration: a minus if it is negative, then hours, minutes, and seconds with up to three
  // decimals, each left out when it is none; together they are its milliseconds.
  lemma {:induction false} DurationSays(n: int) returns (h: Text, m: Text, s: Text, frac: Text)
    requires InRange(n)
    ensures AllDigits(h) && AllDigits(m) && AllDigits(s) && AllDigits(frac) && |frac| <= 3
    ensures FormatDuration(n) == (if n < 0 then [45] else []) + UnitText(h, 104) + UnitText(m, 109)
                                 + UnitText(if frac == [] then s else s + [46] + frac, 115)
    ensures AllDigits(frac + Zeros(3 - |frac|)) && (s == [] ==> frac == [])
    ensures 3600000 * ValueOf(h) + 60000 * ValueOf(m) + 1000 * ValueOf(s) + ValueOf(frac + Zeros(3 - |frac|)) ==
            if n < 0 then -n else n
    ensures ValueOf(m) < 60 && ValueOf(s) < 60 && (frac != [] ==> frac[|frac| - 1] != 48)
  {
    var ms := Abs(n);
    var left := Mod(ms, 60000);
    PartsAre(ms);
    h, m, s, frac := DurationParts(Over(ms, 3600000), Over(Mod(ms, 3600000), 60000), Over(left, 1000), Mod(left, 1000));
    Grouped(Sign(n), UnitText(h, 104), UnitText(m, 109), UnitText(if frac == [] then s else s + [46] + frac, 115));
  }

  lemma {:induction false} Grouped(a: Text, b: Text, c: Text, d: Text)
    ensures a + (b + c + d) == a + b + c + d
  {
  }

  lemma {:induction false} NoTrailingZero(t: Text)
    ensures TrimZeros(t) != [] ==> TrimZeros(t)[|TrimZeros(t)| - 1] != 48
    decreases |t|
  {
    if t != [] && t[|t| - 1] == 48 { NoTrailingZero(t[..|t| - 1]); }
  }

  lemma {:induction false} NoThousandths()
    ensures AllDigits(Zeros(3)) && AllDigits([] + Zeros(3)) && ValueOf([] + Zeros(3)) == 0
  {
    ZerosNumber(3, []);
    assert Zeros(3) + [] == Zeros(3) == [] + Zeros(3);
  }

  lemma {:induction false} SecondsIs(seconds: nat, thousandths: nat, s: Text, frac: Text)
    requires s == Digits(seconds) && frac == if thousandths > 0 then TrimZeros(Pad(thousandths, 3)) else []
    requires thousandths > 0 ==> frac != []
    ensures SecondsText(seconds, thousandths) == UnitText(if frac == [] then s else s + [46] + frac, 115)
  {
    if thousandths > 0 { assert s + ([46] + frac) + [115] == s + [46] + frac + [115]; } else { assert s + [] == s; }
  }

  lemma {:induction false} SecondsSay(seconds: nat, thousandths: nat, shown: bool) returns (s: Text, frac: Text)
    requires thousandths < 1000 && (!shown ==> seconds == 0 && thousandths == 0)
    ensures AllDigits(s) && AllDigits(frac) && |frac| <= 3 && ValueOf(s) == seconds && (s == [] ==> frac == [])
    ensures (if shown then SecondsText(seconds, thousandths) else []) ==
            UnitText(if frac == [] then s else s + [46] + frac, 115)
    ensures AllDigits(frac + Zeros(3 - |frac|)) && ValueOf(frac + Zeros(3 - |frac|)) == thousandths
    ensures frac != [] ==> frac[|frac| - 1] != 48
  {
    s, frac := if shown then Digits(seconds) else [], if thousandths > 0 then TrimZeros(Pad(thousandths, 3)) else [];
    DigitsAre(seconds);
    FracIs(thousandths);
    NoThousandths();
    NoTrailingZero(Pad(thousandths, 3));
    if shown { SecondsIs(seconds, thousandths, s, frac); }
  }

  lemma {:induction false} DurationParts(hours: nat, minutes: nat, seconds: nat, thousandths: nat)
      returns (h: Text, m: Text, s: Text, frac: Text)
    requires thousandths < 1000
    ensures AllDigits(h) && AllDigits(m) && AllDigits(s) && AllDigits(frac) && |frac| <= 3
    ensures DurationText(hours, minutes, seconds, thousandths) ==
            UnitText(h, 104) + UnitText(m, 109) + UnitText(if frac == [] then s else s + [46] + frac, 115)
    ensures ValueOf(h) == hours && ValueOf(m) == minutes && ValueOf(s) == seconds && (s == [] ==> frac == [])
    ensures AllDigits(frac + Zeros(3 - |frac|)) && ValueOf(frac + Zeros(3 - |frac|)) == thousandths
    ensures frac != [] ==> frac[|frac| - 1] != 48
  {
    h, m := if hours > 0 then Digits(hours) else [], if minutes > 0 then Digits(minutes) else [];
    DigitsAre(hours);
    DigitsAre(minutes);
    s, frac := SecondsSay(seconds, thousandths, seconds > 0 || thousandths > 0 || (hours == 0 && minutes == 0));
  }

  // ---------- bytes ----------

  // Bytes: two lower-case hexadecimal digits each, the high one first.
  lemma {:induction false} HexSays(b: Text, k: nat)
    requires k < |b|
    ensures |Hex(b)| == 2 * |b|
    ensures var high, low := Hex(b)[2 * k], Hex(b)[2 * k + 1];
            && (48 <= high <= 57 || 97 <= high <= 102) && (48 <= low <= 57 || 97 <= low <= 102)
            && b[k] == 16 * (if high <= 57 then high - 48 else high - 87) + if low <= 57 then low - 48 else low - 87
  {
    HexLength(b);
    if k > 0 {
      HexLength(b[1..]);
      HexSays(b[1..], k - 1);
      assert Hex(b)[2 * k] == Hex(b[1..])[2 * k - 2] && Hex(b)[2 * k + 1] == Hex(b[1..])[2 * k - 1];
    }
  }

  lemma {:induction false} HexLength(b: Text)
    ensures |Hex(b)| == 2 * |b|
  {
    if b != [] { HexLength(b[1..]); }
  }
}
