/** Dates, times of day, datetimes and durations in ROW's text (row/text.go). */
module RowTimes {
  import opened Bytes
  import opened Row
  import opened RowText
  import opened RowDigits
  import opened RowTokens
  import Civil

  lemma {:induction false} WordsRead(w: World)
    ensures Reads(w, Val.None, NONE) && Reads(w, False, FALSE) && Reads(w, True, TRUE)
  {
  }

  // ---------- date ----------

  lemma {:induction false} DateParts(a: Text, b: Text, c: Text, t: Text)
    requires AllDigits(a) && AllDigits(b) && AllDigits(c) && |a| == 4 && |b| == 2 && |c| == 2
    requires t == a + [45] + b + [45] + c
    ensures |t| == 10 && t[..4] == a && t[5..7] == b && t[8..10] == c && Shaped(t, DATE)
    ensures IsDigit(t[0]) && IsDigit(t[1]) && Token(t)
  {
    assert t[0] == a[0] && t[1] == a[1] && t[2] == a[2] && t[3] == a[3] && t[4] == 45;
    assert t[5] == b[0] && t[6] == b[1] && t[7] == 45 && t[8] == c[0] && t[9] == c[1];
  }

  lemma {:induction false} NotEarlier(t: Text)
    requires |t| > 1 && IsDigit(t[0]) && IsDigit(t[1])
    ensures t != NONE && t != FALSE && t != TRUE && !IsBytes(t)
  {
  }

  lemma {:induction false} DateTextReads(day: int, y: nat, m: nat, d: nat)
    requires Civil.ValidCivil(Civil.Date(y, m, d)) && day == Civil.DaysFromCivil(Civil.Date(y, m, d))
    ensures var t := DateText(y, m, d);
            |t| == 10 && Shaped(t, DATE) && ReadDate(t) == Got(Date(day)) && Token(t) && IsDigit(t[0]) && IsDigit(t[1])
  {
    assert m < 100 && d < 100;
    PadIs(y, 4);
    PadIs(m, 2);
    PadIs(d, 2);
    DateParts(Pad(y, 4), Pad(m, 2), Pad(d, 2), DateText(y, m, d));
  }

  lemma {:induction false} FormatDateReads(n: int)
    requires MIN_DAY <= n <= MAX_DAY
    ensures var t := FormatDate(n);
            |t| == 10 && Shaped(t, DATE) && ReadDate(t) == Got(Date(n)) && Token(t) && IsDigit(t[0]) && IsDigit(t[1])
  {
    var date := Civil.CivilFromDays(n);
    Civil.YearBounds(n);
    Civil.DayInverse(n);
    DateTextReads(n, date.y, date.m, date.d);
  }

  lemma {:induction false} BareDate(w: World, t: Text)
    requires |t| == 10 && Shaped(t, DATE) && IsDigit(t[0]) && IsDigit(t[1])
    ensures Bare(w, t) == ReadDate(t)
  {
    NotEarlier(t);
    Shapes();
  }

  lemma {:induction false} DateReads(w: World, n: int)
    requires MIN_DAY <= n <= MAX_DAY
    ensures Reads(w, Date(n), FormatDate(n))
  {
    FormatDateReads(n);
    BareDate(w, FormatDate(n));
  }

  // ---------- time of day ----------

  lemma {:induction false} TimeParts(a: Text, b: Text, c: Text, d: Text, t: Text)
    requires AllDigits(a) && AllDigits(b) && AllDigits(c) && AllDigits(d) && |a| == 2 && |b| == 2 && |c| == 2
             && |d| == 3
    requires t == a + [58] + b + [58] + c + [46] + d
    ensures |t| == 12 && t[..2] == a && t[3..5] == b && t[6..8] == c && t[9..12] == d && Shaped(t, TIME)
    ensures IsDigit(t[0]) && IsDigit(t[1]) && Token(t)
  {
    assert t[0] == a[0] && t[1] == a[1] && t[2] == 58 && t[3] == b[0] && t[4] == b[1] && t[5] == 58;
    assert t[6] == c[0] && t[7] == c[1] && t[8] == 46 && t[9] == d[0] && t[10] == d[1] && t[11] == d[2];
  }

  lemma {:induction false} TimeTextReads(h: nat, m: nat, s: nat, ms: nat)
    requires h <= 23 && m <= 59 && s <= 59 && ms < 1000
    ensures var t := TimeText(h, m, s, ms);
            |t| == 12 && Shaped(t, TIME) && ReadClock(t) == Got(Time(((h * 60 + m) * 60 + s) * 1000 + ms)) && Token(t)
            && IsDigit(t[0]) && IsDigit(t[1])
  {
    PadIs(h, 2);
    PadIs(m, 2);
    PadIs(s, 2);
    assert Ten(3) == 1000;
    PadIs(ms, 3);
    TimeParts(Pad(h, 2), Pad(m, 2), Pad(s, 2), Pad(ms, 3), TimeText(h, m, s, ms));
  }

  lemma {:induction false} ClockIs(n: nat)
    requires n <= MAX_TIME
    ensures var h, m, s, ms := Over(n, 3600000), Mod(Over(n, 60000), 60), Mod(Over(n, 1000), 60), Mod(n, 1000);
            h <= 23 && m <= 59 && s <= 59 && ms < 1000 && ((h * 60 + m) * 60 + s) * 1000 + ms == n
  {
    var seconds, minutes := Over(n, 1000), Over(n, 60000);
    assert minutes == Over(seconds, 60) && Over(n, 3600000) == Over(minutes, 60);
    assert n == 1000 * seconds + Mod(n, 1000) && seconds == 60 * minutes + Mod(seconds, 60);
  }

  lemma {:induction false} FormatTimeReads(n: nat)
    requires n <= MAX_TIME
    ensures var t := FormatTime(n);
            |t| == 12 && Shaped(t, TIME) && ReadClock(t) == Got(Time(n)) && Token(t) && IsDigit(t[0]) && IsDigit(t[1])
  {
    ClockIs(n);
    TimeTextReads(Over(n, 3600000), Mod(Over(n, 60000), 60), Mod(Over(n, 1000), 60), Mod(n, 1000));
  }

  lemma {:induction false} TimeReads(w: World, n: nat)
    requires n <= MAX_TIME
    ensures Reads(w, Time(n), FormatTime(n))
  {
    FormatTimeReads(n);
    NotEarlier(FormatTime(n));
    Shapes();
  }

  // ---------- datetime ----------

  lemma {:induction false} BothShaped(a: Text, b: Text, t: Text)
    requires |a| == 10 && Shaped(a, DATE) && |b| == 12 && Shaped(b, TIME) && t == a + [84] + b + [90] && Token(a)
             && Token(b)
    ensures |t| == 24 && Shaped(t, DATETIME) && t[..10] == a && t[11..23] == b && t[0] == a[0] && t[1] == a[1]
            && Token(t)
  {
    forall i | 0 <= i < 24
      ensures if DATETIME[i] == 100 then IsDigit(t[i]) else t[i] == DATETIME[i]
    {
      if i < 10 { assert t[i] == a[i] && DATETIME[i] == DATE[i]; }
      else if 11 <= i < 23 { assert t[i] == b[i - 11] && DATETIME[i] == TIME[i - 11]; }
    }
  }

  lemma {:induction false} DaysOf(n: int)
    requires MIN_DATETIME <= n <= MAX_DATETIME
    ensures MIN_DAY <= DayOf(n) <= MAX_DAY && InDay(n) <= MAX_TIME && DayOf(n) * 86400000 + InDay(n) == n
  {
  }

  lemma {:induction false} BareDatetime(w: World, t: Text)
    requires |t| == 24 && Shaped(t, DATETIME) && IsDigit(t[0]) && IsDigit(t[1])
    ensures Bare(w, t) == ReadDatetime(t)
  {
    NotEarlier(t);
  }

  lemma {:induction false} PartsRead(t: Text, a: Text, b: Text, day: int, ms: nat)
    requires Shaped(t, DATETIME) && t[..10] == a && t[11..23] == b
    requires Shaped(a, DATE) && ReadDate(a) == Got(Date(day)) && Shaped(b, TIME) && ReadClock(b) == Got(Time(ms))
    ensures ReadDatetime(t) == Got(Datetime(day * 86400000 + ms))
  {
  }

  lemma {:induction false} DatetimeOf(w: World, t: Text, a: Text, b: Text, day: int, ms: nat)
    requires |a| == 10 && Shaped(a, DATE) && ReadDate(a) == Got(Date(day)) && Token(a) && IsDigit(a[0]) && IsDigit(a[1])
    requires |b| == 12 && Shaped(b, TIME) && ReadClock(b) == Got(Time(ms)) && Token(b) && t == a + [84] + b + [90]
    ensures Token(t) && Bare(w, t) == Got(Datetime(day * 86400000 + ms))
  {
    BothShaped(a, b, t);
    BareDatetime(w, t);
    PartsRead(t, a, b, day, ms);
  }

  lemma {:induction false} DatetimeReads(w: World, n: int)
    requires MIN_DATETIME <= n <= MAX_DATETIME
    ensures Reads(w, Datetime(n), FormatDatetime(n))
  {
    DaysOf(n);
    FormatDateReads(DayOf(n));
    FormatTimeReads(InDay(n));
    DatetimeOf(w, FormatDatetime(n), FormatDate(DayOf(n)), FormatTime(InDay(n)), DayOf(n), InDay(n));
  }

  // ---------- duration ----------

  // Digits, then a byte that is none.
  lemma {:induction false} RunThen(a: Text, c: byte, rest: Text, t: Text)
    requires AllDigits(a) && !IsDigit(c) && t == a + [c] + rest
    ensures DigitRun(t) == |a| && |a| < |t| && t[|a|] == c && t[..|a|] == a && t[|a| + 1..] == rest
            && t[|a|..] == [c] + rest
  {
    assert t == a + ([c] + rest);
    RunIs(a, [c] + rest);
  }

  // What opens with a number that is not of the unit.
  ghost predicate NoUnit(t: Text, unit: byte) { UnitDigits(t, unit) == [] }

  lemma {:induction false} OtherUnit(a: Text, c: byte, rest: Text, t: Text, unit: byte)
    requires AllDigits(a) && !IsDigit(c) && t == a + [c] + rest && c != unit
    ensures NoUnit(t, unit) && AfterUnit(t, unit) == t
  {
    RunThen(a, c, rest, t);
  }

  lemma {:induction false} ThisUnit(a: Text, unit: byte, rest: Text, t: Text)
    requires AllDigits(a) && a != [] && !IsDigit(unit) && t == a + [unit] + rest
    ensures UnitDigits(t, unit) == a && AfterUnit(t, unit) == rest
  {
    RunThen(a, unit, rest, t);
  }

  // The digits of a part, none for a part that is not there.
  function Part(n: nat): Text { if n > 0 then Digits(n) else [] }

  function Frac(frac: nat): Text { if frac > 0 then TrimZeros(Pad(frac, 3)) else [] }

  lemma {:induction false} FracIs(frac: nat)
    requires frac < 1000
    ensures AllDigits(Frac(frac)) && |Frac(frac)| <= 3 && (frac > 0 ==> Frac(frac) != [])
    ensures AllDigits(Frac(frac) + Zeros(3 - |Frac(frac)|)) && ValueOf(Frac(frac) + Zeros(3 - |Frac(frac)|)) == frac
  {
    assert Ten(3) == 1000;
    PadIs(frac, 3);
    if frac > 0 {
      TrimIs(Pad(frac, 3));
    } else {
      ZerosNumber(3, []);
      assert [] + Zeros(3) == Zeros(3) == Zeros(3) + [];
    }
  }

  // Whether the seconds are written.
  predicate Shown(h: nat, m: nat, s: nat, frac: nat) { s > 0 || frac > 0 || (h == 0 && m == 0) }

  function Tail(h: nat, m: nat, s: nat, frac: nat): Text { if Shown(h, m, s, frac) then SecondsText(s, frac) else [] }

  lemma {:induction false} FractionRead(neg: bool, a: Text, b: Text, whole: Text, part: Text, t: Text)
    requires AllDigits(whole) && AllDigits(part) && 1 <= |part| <= 3 && whole != []
             && t == whole + [46] + (part + [115])
    ensures Seconds(neg, a, b, t) == Parts(neg, a, b, whole, part)
    ensures UnitDigits(t, 104) == [] && UnitDigits(t, 109) == []
  {
    var more := part + [115];
    RunThen(whole, 46, more, t);
    assert more == part + [115] + [];
    RunThen(part, 115, [], more);
    assert t[|whole| + 1..] == more;
    assert t[|whole| + 1 + |part|..] == more[|part|..];
  }

  lemma {:induction false} SecondsRead(neg: bool, a: Text, b: Text, s: nat, frac: nat, t: Text)
    requires frac < 1000 && t == SecondsText(s, frac)
    ensures Seconds(neg, a, b, t) == Parts(neg, a, b, Digits(s), Frac(frac))
    ensures UnitDigits(t, 104) == [] && UnitDigits(t, 109) == []
  {
    DigitsAre(s);
    FracIs(frac);
    if frac > 0 {
      FractionRead(neg, a, b, Digits(s), Frac(frac), t);
    } else {
      assert t == Digits(s) + [115] + [];
      RunThen(Digits(s), 115, [], t);
    }
  }

  function TailDigits(h: nat, m: nat, s: nat, frac: nat): Text { if Shown(h, m, s, frac) then Digits(s) else [] }

  lemma {:induction false} TailReads(neg: bool, a: Text, b: Text, h: nat, m: nat, s: nat, frac: nat, t: Text)
    requires frac < 1000 && t == Tail(h, m, s, frac)
    ensures UnitDigits(t, 104) == [] && UnitDigits(t, 109) == []
    ensures Seconds(neg, a, b, t) ==
            Parts(neg, a, b, TailDigits(h, m, s, frac), if Shown(h, m, s, frac) then Frac(frac) else [])
  {
    if Shown(h, m, s, frac) { SecondsRead(neg, a, b, s, frac, t); }
  }

  // Minutes, then the seconds.
  function MinutesText(m: nat, tail: Text): Text { (if m > 0 then Digits(m) + [109] else []) + tail }

  lemma {:induction false} MinutesRead(m: nat, tail: Text, t: Text)
    requires t == MinutesText(m, tail) && UnitDigits(tail, 104) == [] && UnitDigits(tail, 109) == []
    ensures UnitDigits(t, 104) == [] && UnitDigits(t, 109) == Part(m) && AfterUnit(t, 109) == tail
  {
    DigitsAre(m);
    if m > 0 {
      ThisUnit(Digits(m), 109, tail, t);
      OtherUnit(Digits(m), 109, tail, t, 104);
    } else {
      assert t == tail;
    }
  }

  lemma {:induction false} HoursRead(h: nat, more: Text, t: Text)
    requires t == (if h > 0 then Digits(h) + [104] else []) + more && UnitDigits(more, 104) == []
    ensures UnitDigits(t, 104) == Part(h) && AfterUnit(t, 104) == more
  {
    DigitsAre(h);
    if h > 0 { ThisUnit(Digits(h), 104, more, t); } else { assert t == more; }
  }

  lemma {:induction false} DurationMatches(t: Text, neg: bool, h: nat, m: nat, s: nat, frac: nat)
    requires frac < 1000 && neg == Minus(t) && Unsigned(t) == DurationText(h, m, s, frac)
    ensures MatchDuration(t) ==
            Parts(neg, Part(h), Part(m), TailDigits(h, m, s, frac), if Shown(h, m, s, frac) then Frac(frac) else [])
  {
    var u, tail := Unsigned(t), Tail(h, m, s, frac);
    var more := MinutesText(m, tail);
    TailReads(neg, Part(h), Part(m), h, m, s, frac, tail);
    MinutesRead(m, tail, more);
    Grouped(if h > 0 then Digits(h) + [104] else [], if m > 0 then Digits(m) + [109] else [], tail);
    HoursRead(h, more, u);
  }

  lemma {:induction false} Grouped(a: Text, b: Text, c: Text)
    ensures a + b + c == a + (b + c)
  {
  }

  // Digits, points and units, or nothing.
  ghost predicate Units(t: Text) {
    forall k :: 0 <= k < |t| ==> IsDigit(t[k]) || t[k] == 46 || t[k] == 104 || t[k] == 109 || t[k] == 115
  }

  lemma {:induction false} UnitsAppend(a: Text, b: Text)
    requires Units(a) && Units(b)
    ensures Units(a + b)
  {
  }

  lemma {:induction false} SecondsUnits(s: nat, frac: nat)
    requires frac < 1000
    ensures Units(SecondsText(s, frac)) && IsDigit(SecondsText(s, frac)[0])
  {
    DigitsAre(s);
    FracIs(frac);
    var point := if frac > 0 then [46] + TrimZeros(Pad(frac, 3)) else [];
    assert Units(point) by { if frac > 0 { assert TrimZeros(Pad(frac, 3)) == Frac(frac); } }
    UnitsAppend(Digits(s), point);
    UnitsAppend(Digits(s) + point, [115]);
    assert SecondsText(s, frac)[0] == Digits(s)[0];
  }

  ghost predicate Starts(t: Text) { Units(t) && (t != [] ==> IsDigit(t[0])) }

  lemma {:induction false} StartsAppend(a: Text, b: Text)
    requires Starts(a) && Starts(b)
    ensures Starts(a + b)
  {
  }

  lemma {:induction false} UnitStarts(n: nat, unit: byte)
    requires unit == 104 || unit == 109
    ensures Starts(if n > 0 then Digits(n) + [unit] else [])
  {
    DigitsAre(n);
    if n > 0 { UnitsAppend(Digits(n), [unit]); }
  }

  lemma {:induction false} DurationNumeric(h: nat, m: nat, s: nat, frac: nat)
    requires frac < 1000
    ensures Numeric(DurationText(h, m, s, frac))
  {
    var a, b, c := if h > 0 then Digits(h) + [104] else [], if m > 0 then Digits(m) + [109] else [],
        Tail(h, m, s, frac);
    UnitStarts(h, 104);
    UnitStarts(m, 109);
    if Shown(h, m, s, frac) { SecondsUnits(s, frac); }
    StartsAppend(a, b);
    StartsAppend(a + b, c);
    assert DurationText(h, m, s, frac) == a + b + c;
  }

  lemma {:induction false} PartValue(n: nat)
    ensures AllDigits(Part(n)) && ValueOf(Part(n)) == n && (Part(n) == [] <==> n == 0)
  {
    DigitsAre(n);
  }

  lemma {:induction false} PartReads(t: Text, n: nat, unit: nat)
    requires AllDigits(t) && ValueOf(t) == n && unit > 0 && n <= Over(MAX_INT, unit) && n <= MAX_INT
    ensures PartMs(t, unit) == Some(n * unit)
  {
  }

  // The parts of a duration in range, and what they come to.
  lemma {:induction false} PartsAre(ms: nat)
    requires ms <= MAX_INT
    ensures var h, m, left := Over(ms, 3600000), Over(Mod(ms, 3600000), 60000), Mod(ms, 60000);
            var s, frac := Over(left, 1000), Mod(left, 1000);
            && h <= Over(MAX_INT, 3600000) && h <= MAX_INT && m < 60 && s < 60 && frac < 1000
            && h * 3600000 + m * 60000 + s * 1000 + frac == ms
  {
    var h, rest, left := Over(ms, 3600000), Mod(ms, 3600000), Mod(ms, 60000);
    HourIs(ms, h, rest);
    MinuteIs(ms, h, rest, Over(rest, 60000), left);
    SecondIs(left);
  }

  lemma {:induction false} HourIs(ms: nat, h: nat, rest: nat)
    requires ms <= MAX_INT && h == Over(ms, 3600000) && rest == Mod(ms, 3600000)
    ensures ms == 3600000 * h + rest && rest < 3600000 && h <= Over(MAX_INT, 3600000) && h <= MAX_INT
  {
  }

  lemma {:induction false} MinuteIs(ms: nat, h: nat, rest: nat, m: nat, left: nat)
    requires ms == 3600000 * h + rest && rest < 3600000 && m == Over(rest, 60000) && left == Mod(ms, 60000)
    ensures m < 60 && rest == 60000 * m + left && left < 60000
  {
    assert ms == 60000 * (60 * h + m) + Mod(rest, 60000);
  }

  lemma {:induction false} SecondIs(left: nat)
    requires left < 60000
    ensures Over(left, 1000) < 60 && Mod(left, 1000) < 1000 && left == 1000 * Over(left, 1000) + Mod(left, 1000)
  {
  }

  lemma {:induction false} Limits()
    ensures Over(MAX_INT, 60000) > 60 && Over(MAX_INT, 1000) > 60
  {
  }

  lemma {:induction false} FracReads(h: nat, m: nat, s: nat, frac: nat, f: Text)
    requires frac < 1000 && f == if Shown(h, m, s, frac) then Frac(frac) else []
    ensures AllDigits(f) && |f| <= 3 && AllDigits(f + Zeros(3 - |f|))
    ensures (if f == [] then 0 else ValueOf(f + Zeros(3 - |f|))) == frac
  {
    FracIs(frac);
  }

  lemma {:induction false} TailValue(h: nat, m: nat, s: nat, frac: nat)
    ensures AllDigits(TailDigits(h, m, s, frac)) && ValueOf(TailDigits(h, m, s, frac)) == s
    ensures h == 0 && m == 0 ==> TailDigits(h, m, s, frac) != []
  {
    DigitsAre(s);
  }

  lemma {:induction false} DurationValue(n: int, h: nat, m: nat, s: nat, frac: nat, p: Parts)
    requires h <= Over(MAX_INT, 3600000) && h <= MAX_INT && m < 60 && s < 60 && frac < 1000
    requires h * 3600000 + m * 60000 + s * 1000 + frac == Abs(n) <= MAX_INT
    requires p == Parts(n < 0, Part(h), Part(m), TailDigits(h, m, s, frac),
             if Shown(h, m, s, frac) then Frac(frac) else [])
    ensures PartsOk(p) && (p.h != [] || p.m != [] || p.s != [])
    ensures ReadDuration(p) == Got(Duration(n))
  {
    PartValue(h);
    PartValue(m);
    TailValue(h, m, s, frac);
    FracReads(h, m, s, frac, p.frac);
    Limits();
    PartReads(p.h, h, 3600000);
    PartReads(p.m, m, 60000);
    PartReads(p.s, s, 1000);
  }

  lemma {:induction false} DurationBare(w: World, t: Text, p: Parts, v: Val)
    requires Loose(t) && p == MatchDuration(t) && p.Parts? && PartsOk(p) && (p.h != [] || p.m != [] || p.s != [])
    requires ReadDuration(p) == Got(v)
    ensures Bare(w, t) == Got(v)
  {
    BareLoose(w, t);
  }

  lemma {:induction false} DurationToken(n: int, t: Text, h: nat, m: nat, s: nat, frac: nat, p: Parts)
    requires frac < 1000 && t == Sign(n) + DurationText(h, m, s, frac)
    requires p == Parts(n < 0, Part(h), Part(m), TailDigits(h, m, s, frac),
             if Shown(h, m, s, frac) then Frac(frac) else [])
    ensures Loose(t) && Token(t) && p == MatchDuration(t)
  {
    DurationNumeric(h, m, s, frac);
    NumericToken(n, DurationText(h, m, s, frac), t);
    DurationMatches(t, n < 0, h, m, s, frac);
  }

  // What a spelt duration matches as, and reads as.
  lemma {:induction false} Matched(n: int, t: Text, h: nat, m: nat, s: nat, frac: nat) returns (p: Parts)
    requires h <= Over(MAX_INT, 3600000) && h <= MAX_INT && m < 60 && s < 60 && frac < 1000
    requires h * 3600000 + m * 60000 + s * 1000 + frac == Abs(n) <= MAX_INT
             && t == Sign(n) + DurationText(h, m, s, frac)
    ensures Loose(t) && Token(t) && p == MatchDuration(t) && p.Parts? && PartsOk(p)
            && (p.h != [] || p.m != [] || p.s != [])
    ensures ReadDuration(p) == Got(Duration(n))
  {
    p := Parts(n < 0, Part(h), Part(m), TailDigits(h, m, s, frac), if Shown(h, m, s, frac) then Frac(frac) else []);
    DurationValue(n, h, m, s, frac, p);
    DurationToken(n, t, h, m, s, frac, p);
  }

  lemma {:induction false} SpeltReads(w: World, n: int, t: Text, h: nat, m: nat, s: nat, frac: nat)
    requires h <= Over(MAX_INT, 3600000) && h <= MAX_INT && m < 60 && s < 60 && frac < 1000
    requires h * 3600000 + m * 60000 + s * 1000 + frac == Abs(n) <= MAX_INT
             && t == Sign(n) + DurationText(h, m, s, frac)
    ensures Reads(w, Duration(n), t)
  {
    var p := Matched(n, t, h, m, s, frac);
    DurationBare(w, t, p, Duration(n));
  }

  lemma {:induction false} DurationReads(w: World, n: int)
    requires InRange(n)
    ensures Reads(w, Duration(n), FormatDuration(n))
  {
    var ms := Abs(n);
    var left := Mod(ms, 60000);
    PartsAre(ms);
    SpeltReads(w, n, FormatDuration(n), Over(ms, 3600000), Over(Mod(ms, 3600000), 60000), Over(left, 1000),
        Mod(left, 1000));
  }
}
