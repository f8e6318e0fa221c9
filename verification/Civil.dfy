/** Days and dates of the proleptic Gregorian calendar (row/civil.go), for every day there is. */
module Civil {
  import opened Ints

  datatype Date = Date(y: int, m: int, d: int)

  // daysFromCivil
  function DaysFromCivil(date: Date): int {
    var y := if date.m <= 2 then date.y - 1 else date.y;
    var era := Quo(if y < 0 then y - 399 else y, 400);
    var yoe := y - era * 400;
    var mp := if date.m > 2 then date.m - 3 else date.m + 9;
    var doy := Quo(153 * mp + 2, 5) + date.d - 1;
    var doe := yoe * 365 + Quo(yoe, 4) - Quo(yoe, 100) + doy;
    era * 146097 + doe - 719468
  }

  // The year of an era a day of it falls in.
  function YearOf(doe: int): int { Quo(doe - Quo(doe, 1460) + Quo(doe, 36524) - Quo(doe, 146096), 365) }

  // civilFromDays, from the day of the March year on.
  function DateOfDay(era: int, yoe: int, doy: int): Date {
    var mp := Quo(5 * doy + 2, 153);
    var d := doy - Quo(153 * mp + 2, 5) + 1;
    var m := if mp >= 10 then mp - 9 else mp + 3;
    Date(yoe + era * 400 + if m <= 2 then 1 else 0, m, d)
  }

  function DateInEra(era: int, doe: int): Date {
    var yoe := YearOf(doe);
    DateOfDay(era, yoe, doe - (365 * yoe + Quo(yoe, 4) - Quo(yoe, 100)))
  }

  // civilFromDays
  function CivilFromDays(days: int): Date {
    var z := days + 719468;
    var era := Quo(if z < 0 then z - 146096 else z, 146097);
    DateInEra(era, z - era * 146097)
  }

  predicate Leap(y: int) { y % 4 == 0 && (y % 100 != 0 || y % 400 == 0) }

  // daysIn
  function DaysIn(y: int, m: int): int {
    if m == 2 then if Leap(y) then 29 else 28
    else if m == 4 || m == 6 || m == 9 || m == 11 then 30
    else 31
  }

  // A date of the calendar.
  predicate Real(date: Date) { 1 <= date.m <= 12 && 1 <= date.d <= DaysIn(date.y, date.m) }

  // validCivil: one of the years a row may hold.
  predicate ValidCivil(date: Date) { 1 <= date.y <= 9999 && Real(date) }

  // ---------- eras ----------

  lemma {:induction false} FloorIs(a: int, b: int, q: int)
    requires b > 0 && q * b <= a < (q + 1) * b
    ensures Quo(if a < 0 then a - (b - 1) else a, b) == q
  {
    if a >= 0 {
      QuotientIs(a, b, q);
    } else {
      assert (-q) * b == -(q * b) && (-q + 1) * b == -(q * b) + b;
      QuotientIs(b - 1 - a, b, -q);
    }
  }

  lemma {:induction false} QuotientIs(a: int, b: int, q: int)
    requires b > 0 && q * b <= a < (q + 1) * b
    ensures a / b == q
  {
    var p := a / b;
    if p < q { Product(p + 1, q, b); } else if p > q { Product(q + 1, p, b); }
  }

  lemma {:induction false} Product(p: int, q: int, b: int)
    requires p <= q && b > 0
    ensures p * b <= q * b
  {
    assert (q - p) * b >= 0;
  }

  // ---------- a year of an era, as century, cycle of four, year of it and day ----------

  datatype Place = Place(c: int, q: int, r: int, day: int)

  predicate Placed(p: Place) {
    && 0 <= p.c <= 3 && 0 <= p.q <= 24 && 0 <= p.r <= 3 && 0 <= p.day <= 365
    && (p.day == 365 ==> p.r == 3 && (p.q < 24 || p.c == 3))
  }

  function Year(p: Place): int { 100 * p.c + 4 * p.q + p.r }

  function Day(p: Place): int { 36524 * p.c + 1461 * p.q + 365 * p.r + p.day }

  lemma {:induction false} DayBounds(p: Place)
    requires Placed(p)
    ensures 0 <= Day(p) <= 146096 && 0 <= Year(p) <= 399
  {
  }

  // The days before the year.
  lemma {:induction false} DayIs(p: Place)
    requires Placed(p)
    ensures Day(p) == 365 * Year(p) + Quo(Year(p), 4) - Quo(Year(p), 100) + p.day
  {
    assert Year(p) / 4 == 25 * p.c + p.q;
    assert Year(p) / 100 == p.c;
  }

  // The formula for the year takes the days' places back.
  lemma {:induction false} YearIs(p: Place)
    requires Placed(p)
    ensures YearOf(Day(p)) == Year(p)
  {
    var doe := Day(p);
    var over := if 24 * p.c + p.q + 365 * p.r + p.day >= 1460 then 1 else 0;
    assert doe / 1460 == 25 * p.c + p.q + over;
    assert doe / 36524 - doe / 146096 == p.c by {
      if doe == 146096 { assert p.c == 3; } else { assert doe / 146096 == 0 && doe / 36524 == p.c; }
    }
    assert doe - doe / 1460 + doe / 36524 - doe / 146096 == 365 * Year(p) + p.day - over;
  }

  // Every day of an era has a place.
  function PlaceOf(doe: int): (p: Place)
    requires 0 <= doe <= 146096
    ensures Placed(p) && Day(p) == doe
  {
    var c := if doe / 36524 > 3 then 3 else doe / 36524;
    var e := doe - 36524 * c;
    var q := e / 1461;
    var f := e - 1461 * q;
    var r := if f / 365 > 3 then 3 else f / 365;
    Place(c, q, r, f - 365 * r)
  }

  // And every year.
  lemma {:induction false} YearPlace(yoe: int, day: int) returns (p: Place)
    requires 0 <= yoe <= 399
    ensures Year(p) == yoe && p.day == day && 0 <= p.c <= 3 && 0 <= p.q <= 24 && 0 <= p.r <= 3
  {
    var c := yoe / 100;
    var q := (yoe - 100 * c) / 4;
    p := Place(c, q, yoe - 100 * c - 4 * q, day);
  }

  lemma {:induction false} EraYear(y: int) returns (era: int, yoe: int)
    ensures y == era * 400 + yoe && 0 <= yoe <= 399
  {
    era, yoe := y / 400, y % 400;
  }

  // The February of a year that begins in March is in the next calendar year.
  lemma {:induction false} LeapPlace(p: Place, era: int)
    requires 0 <= p.c <= 3 && 0 <= p.q <= 24 && 0 <= p.r <= 3
    ensures Leap(Year(p) + era * 400 + 1) <==> p.r == 3 && (p.q < 24 || p.c == 3)
  {
    var y := Year(p) + 1;
    ModAdd(y, era, 400);
    ModAdd(y, 4 * era, 100);
    ModAdd(y, 100 * era, 4);
    assert y + era * 400 == y + (4 * era) * 100 == y + (100 * era) * 4;
    LeapYearOfEra(p, y);
  }

  lemma {:induction false} LeapYearOfEra(p: Place, y: int)
    requires 0 <= p.c <= 3 && 0 <= p.q <= 24 && 0 <= p.r <= 3 && y == Year(p) + 1
    ensures Leap(y) <==> p.r == 3 && (p.q < 24 || p.c == 3)
  {
    ModAdd(p.r + 1, 25 * p.c + p.q, 4);
    ModAdd(4 * p.q + p.r + 1, p.c, 100);
    assert y == p.r + 1 + (25 * p.c + p.q) * 4 == 4 * p.q + p.r + 1 + p.c * 100;
  }

  lemma {:induction false} ModAdd(a: int, k: int, b: int)
    requires b > 0
    ensures (a + k * b) % b == a % b
  {
    var q := a / b;
    assert a + k * b == (q + k) * b + a % b;
    QuotientIs(a + k * b, b, q + k);
  }

  // ---------- months ----------

  function Before(mp: int): int { Quo(153 * mp + 2, 5) }

  // The length of month mp counted from March, February's that of a leap year or not.
  function Length(mp: int, leap: bool): int {
    if mp == 11 then if leap then 29 else 28
    else if mp == 1 || mp == 3 || mp == 6 || mp == 8 then 30
    else 31
  }

  lemma {:induction false} MonthIs(mp: int, d: int)
    requires 0 <= mp <= 11 && 1 <= d <= Length(mp, true)
    ensures var doy := Before(mp) + d - 1;
            0 <= doy <= 365 && Quo(5 * doy + 2, 153) == mp && (doy == 365 <==> mp == 11 && d == 29)
  {
    if mp == 0 { } else if mp == 1 { } else if mp == 2 { } else if mp == 3 { } else if mp == 4 { } else if mp == 5 { }
    else if mp == 6 { } else if mp == 7 { } else if mp == 8 { } else if mp == 9 { } else if mp == 10 { } else { }
  }

  lemma {:induction false} DayOfMonth(doy: int)
    requires 0 <= doy <= 365
    ensures var mp := Quo(5 * doy + 2, 153); 0 <= mp <= 11 && 1 <= doy - Before(mp) + 1 <= Length(mp, doy == 365)
  {
    var mp := Quo(5 * doy + 2, 153);
    if mp == 0 { } else if mp == 1 { } else if mp == 2 { } else if mp == 3 { } else if mp == 4 { } else if mp == 5 { }
    else if mp == 6 { } else if mp == 7 { } else if mp == 8 { } else if mp == 9 { } else if mp == 10 { } else { }
  }

  // ---------- both ways ----------

  // The date of day d of month mp, counted from March, of a year of an era.
  function DateIn(era: int, yoe: int, mp: int, d: int): Date {
    var m := if mp >= 10 then mp - 9 else mp + 3;
    Date(yoe + era * 400 + if m <= 2 then 1 else 0, m, d)
  }

  predicate LeapYear(p: Place) { p.r == 3 && (p.q < 24 || p.c == 3) }

  // The date is day d of month mp of the place's year of the era, b days of that year before the
  // month.
  predicate Stands(date: Date, era: int, p: Place, mp: int, d: int, b: int) {
    && Placed(p) && date == DateIn(era, Year(p), mp, d) && b == Before(mp)
    && 0 <= mp <= 11 && 1 <= d <= Length(mp, LeapYear(p)) && p.day == b + d - 1
  }

  function DayNumber(era: int, p: Place): int { era * 146097 + Day(p) - 719468 }

  lemma {:induction false} StandsReal(date: Date, era: int, p: Place, mp: int, d: int, b: int)
    requires Stands(date, era, p, mp, d, b)
    ensures Real(date) && DaysIn(date.y, date.m) == Length(mp, LeapYear(p))
  {
    LeapPlace(p, era);
  }

  lemma {:induction false} DaysBy(date: Date, y: int, era: int, yoe: int, mp: int, doe: int)
    requires y == if date.m <= 2 then date.y - 1 else date.y
    requires era == Quo(if y < 0 then y - 399 else y, 400) && yoe == y - era * 400
    requires mp == if date.m > 2 then date.m - 3 else date.m + 9
    requires doe == 365 * yoe + Quo(yoe, 4) - Quo(yoe, 100) + (Before(mp) + date.d - 1)
    ensures DaysFromCivil(date) == era * 146097 + doe - 719468
  {
  }

  lemma {:induction false} StandsDays(date: Date, era: int, p: Place, mp: int, d: int, b: int)
    requires Stands(date, era, p, mp, d, b)
    ensures DaysFromCivil(date) == DayNumber(era, p)
  {
    var y := Year(p) + era * 400;
    DayBounds(p);
    FloorIs(y, 400, era);
    DayIs(p);
    DaysBy(date, y, era, Year(p), mp, Day(p));
  }

  lemma {:induction false} InMonth(era: int, p: Place, mp: int, d: int, b: int)
    requires b == Before(mp) && 0 <= mp <= 11 && 1 <= d <= Length(mp, true) && p.day == b + d - 1
    ensures DateOfDay(era, Year(p), p.day) == DateIn(era, Year(p), mp, d)
  {
    MonthIs(mp, d);
  }

  lemma {:induction false} InEra(era: int, p: Place)
    requires Placed(p)
    ensures DateInEra(era, Day(p)) == DateOfDay(era, Year(p), p.day)
  {
    YearIs(p);
    DayIs(p);
  }

  lemma {:induction false} CivilOfEra(days: int, era: int, doe: int)
    requires days + 719468 == era * 146097 + doe && 0 <= doe <= 146096
    ensures CivilFromDays(days) == DateInEra(era, doe)
  {
    FloorIs(days + 719468, 146097, era);
  }

  lemma {:induction false} StandsCivil(date: Date, era: int, p: Place, mp: int, d: int, b: int)
    requires Stands(date, era, p, mp, d, b)
    ensures CivilFromDays(DayNumber(era, p)) == date
  {
    DayBounds(p);
    CivilOfEra(DayNumber(era, p), era, Day(p));
    InEra(era, p);
    InMonth(era, p, mp, d, b);
  }

  lemma {:induction false} MonthHolds(date: Date, mp: int, era: int, p: Place)
    requires Real(date) && mp == if date.m > 2 then date.m - 3 else date.m + 9
    requires 0 <= p.c <= 3 && 0 <= p.q <= 24 && 0 <= p.r <= 3
    requires Year(p) + era * 400 == if date.m <= 2 then date.y - 1 else date.y
    ensures 0 <= mp <= 11 && 1 <= date.d <= Length(mp, LeapYear(p))
    ensures date == DateIn(era, Year(p), mp, date.d)
  {
    LeapPlace(p, era);
  }

  lemma {:induction false} StandsAt(date: Date, era: int, p: Place, mp: int, d: int, b: int)
    requires 0 <= p.c <= 3 && 0 <= p.q <= 24 && 0 <= p.r <= 3 && p.day == b + d - 1 && b == Before(mp)
    requires 0 <= mp <= 11 && 1 <= d <= Length(mp, LeapYear(p)) && date == DateIn(era, Year(p), mp, d)
    ensures Stands(date, era, p, mp, d, b)
  {
    MonthIs(mp, d);
  }

  // Every date of the calendar stands somewhere.
  lemma {:induction false} DateStands(date: Date) returns (era: int, p: Place, mp: int, b: int)
    requires Real(date)
    ensures Stands(date, era, p, mp, date.d, b)
  {
    var y, yoe := if date.m <= 2 then date.y - 1 else date.y, 0;
    mp := if date.m > 2 then date.m - 3 else date.m + 9;
    b := Before(mp);
    era, yoe := EraYear(y);
    p := YearPlace(yoe, b + date.d - 1);
    MonthHolds(date, mp, era, p);
    StandsAt(date, era, p, mp, date.d, b);
  }

  // And every day.
  lemma {:induction false} DayStands(days: int) returns (date: Date, era: int, p: Place, mp: int, d: int, b: int)
    ensures Stands(date, era, p, mp, d, b) && DayNumber(era, p) == days
  {
    var z := days + 719468;
    era := z / 146097;
    p := PlaceOf(z - era * 146097);
    mp := Quo(5 * p.day + 2, 153);
    b := Before(mp);
    d := p.day - b + 1;
    date := DateIn(era, Year(p), mp, d);
    DayOfMonth(p.day);
  }

  // The date of a date's day is the date.
  lemma {:induction false} DateInverse(date: Date)
    requires Real(date)
    ensures CivilFromDays(DaysFromCivil(date)) == date
  {
    var era, p, mp, b := DateStands(date);
    StandsDays(date, era, p, mp, date.d, b);
    StandsCivil(date, era, p, mp, date.d, b);
  }

  // Every day has a date of the calendar, and the day of that date is the day.
  lemma {:induction false} DayInverse(days: int)
    ensures Real(CivilFromDays(days)) && DaysFromCivil(CivilFromDays(days)) == days
  {
    var date, era, p, mp, d, b := DayStands(days);
    StandsReal(date, era, p, mp, d, b);
    StandsDays(date, era, p, mp, d, b);
    StandsCivil(date, era, p, mp, d, b);
  }

  // ---------- the next day ----------

  // The calendar's successor.
  function NextDate(date: Date): Date {
    if date.d < DaysIn(date.y, date.m) then Date(date.y, date.m, date.d + 1)
    else if date.m < 12 then Date(date.y, date.m + 1, 1)
    else Date(date.y + 1, 1, 1)
  }

  lemma {:induction false} MonthEnds(mp: int, leap: bool)
    requires 0 <= mp <= 11
    ensures Before(mp) + Length(mp, leap) == if mp == 11 then 365 + (if leap then 1 else 0) else Before(mp + 1)
  {
    if mp == 0 { } else if mp == 1 { } else if mp == 2 { } else if mp == 3 { } else if mp == 4 { } else if mp == 5 { }
    else if mp == 6 { } else if mp == 7 { } else if mp == 8 { } else if mp == 9 { } else if mp == 10 { } else { }
  }

  // The last year of an era.
  predicate EraEnds(p: Place) { p.r == 3 && p.q == 24 && p.c == 3 }

  // The first day of the year after p's; past the last year of the era, of the next era.
  function NextYear(p: Place): Place {
    if EraEnds(p) then Place(0, 0, 0, 0)
    else if p.r < 3 then Place(p.c, p.q, p.r + 1, 0)
    else if p.q < 24 then Place(p.c, p.q + 1, 0, 0)
    else Place(p.c + 1, 0, 0, 0)
  }

  lemma {:induction false} NextIs(date: Date, length: int, next: Date)
    requires length == DaysIn(date.y, date.m)
    requires next == if date.d < length then Date(date.y, date.m, date.d + 1)
                     else if date.m < 12 then Date(date.y, date.m + 1, 1) else Date(date.y + 1, 1, 1)
    ensures next == NextDate(date)
  {
  }

  lemma {:induction false} NextInMonth(date: Date, era: int, p: Place, mp: int, d: int, b: int)
    requires Stands(date, era, p, mp, d, b) && d < Length(mp, LeapYear(p))
    ensures Stands(Date(date.y, date.m, d + 1), era, p.(day := p.day + 1), mp, d + 1, b)
  {
    MonthIs(mp, d + 1);
  }

  lemma {:induction false} NextMonth(date: Date, era: int, p: Place, mp: int, d: int, b: int, b': int)
    requires Stands(date, era, p, mp, d, b) && d == Length(mp, LeapYear(p)) && mp < 11 && b' == Before(mp + 1)
    ensures Stands(if date.m < 12 then Date(date.y, date.m + 1, 1) else Date(date.y + 1, 1, 1), era,
            p.(day := p.day + 1), mp + 1, 1, b')
  {
    MonthEnds(mp, LeapYear(p));
    MonthIs(mp + 1, 1);
  }

  // `turn` eras on, the first day of the next year is a day later than the last of this.
  ghost predicate Follows(day: int, next: int, year: int, later: int, turn: int) {
    next + turn * 146097 == day + 1 && later + turn * 400 == year + 1
  }

  lemma {:induction false} SameEra(day: int, next: int, year: int, later: int, turn: int)
    requires turn == 0 && next == day + 1 && later == year + 1
    ensures Follows(day, next, year, later, turn)
  {
  }

  lemma {:induction false} NextEra(day: int, next: int, year: int, later: int, turn: int)
    requires turn == 1 && day == 146096 && year == 399 && next == 0 && later == 0
    ensures Follows(day, next, year, later, turn)
  {
  }

  lemma {:induction false} NextYearOf(p: Place, n: Place)
    requires Placed(p) && !EraEnds(p) && p.day == 364 + (if LeapYear(p) then 1 else 0) && n == NextYear(p)
    ensures Placed(n) && n.day == 0 && Day(n) == Day(p) + 1 && Year(n) == Year(p) + 1
  {
  }

  lemma {:induction false} LastDayOfEra(p: Place)
    requires EraEnds(p) && p.day == 365
    ensures Day(p) == 146096 && Year(p) == 399
  {
  }

  lemma {:induction false} FirstDayOfEra(p: Place, n: Place)
    requires EraEnds(p) && n == NextYear(p)
    ensures Placed(n) && n.day == 0 && Day(n) == 0 && Year(n) == 0
  {
  }

  lemma {:induction false} NextEraIn(p: Place, n: Place, turn: int)
    requires EraEnds(p) && p.day == 365 && n == NextYear(p) && turn == 1
    ensures Placed(n) && n.day == 0 && Follows(Day(p), Day(n), Year(p), Year(n), turn)
  {
    LastDayOfEra(p);
    FirstDayOfEra(p, n);
    NextEra(Day(p), Day(n), Year(p), Year(n), turn);
  }

  lemma {:induction false} NextYearIn(p: Place, n: Place, turn: int)
    requires Placed(p) && p.day == 364 + (if LeapYear(p) then 1 else 0)
    requires n == NextYear(p) && turn == if EraEnds(p) then 1 else 0
    ensures Placed(n) && n.day == 0 && Follows(Day(p), Day(n), Year(p), Year(n), turn)
  {
    if EraEnds(p) {
      NextEraIn(p, n, turn);
    } else {
      NextYearOf(p, n);
      SameEra(Day(p), Day(n), Year(p), Year(n), turn);
    }
  }

  lemma {:induction false} EraTurns(era: int, e: int, turn: int, day: int, next: int, year: int, later: int)
    requires e == era + turn && Follows(day, next, year, later, turn)
    ensures next + e * 146097 == day + era * 146097 + 1 && later + e * 400 == year + era * 400 + 1
  {
  }

  lemma {:induction false} NextYearDay(era: int, p: Place, e: int, n: Place)
    requires Placed(p) && p.day == 364 + (if LeapYear(p) then 1 else 0)
    requires n == NextYear(p) && e == if EraEnds(p) then era + 1 else era
    ensures Placed(n) && n.day == 0 && Day(n) + e * 146097 == Day(p) + era * 146097 + 1
    ensures Year(n) + e * 400 == Year(p) + era * 400 + 1
  {
    NextYearIn(p, n, e - era);
    EraTurns(era, e, e - era, Day(p), Day(n), Year(p), Year(n));
  }

  lemma {:induction false} LastDay(date: Date, era: int, p: Place, d: int, b: int)
    requires Stands(date, era, p, 11, d, b) && d == Length(11, LeapYear(p))
    ensures Placed(p) && p.day == 364 + (if LeapYear(p) then 1 else 0) && date == Date(Year(p) + era * 400 + 1, 2, d)
  {
    MonthEnds(11, LeapYear(p));
  }

  lemma {:induction false} FirstOfMarch(e: int, n: Place)
    requires Placed(n) && n.day == 0
    ensures Stands(Date(Year(n) + e * 400, 3, 1), e, n, 0, 1, 0)
  {
    assert Before(0) == 0;
  }

  lemma {:induction false} YearEnds(date: Date, era: int, p: Place, d: int, b: int, e: int, n: Place)
    requires Stands(date, era, p, 11, d, b) && d == Length(11, LeapYear(p))
    requires n == NextYear(p) && e == if EraEnds(p) then era + 1 else era
    ensures Stands(Date(date.y, date.m + 1, 1), e, n, 0, 1, 0) && DayNumber(e, n) == DayNumber(era, p) + 1
  {
    LastDay(date, era, p, d, b);
    NextYearDay(era, p, e, n);
    FirstOfMarch(e, n);
  }

  lemma {:induction false} NextDayNumber(era: int, p: Place)
    ensures DayNumber(era, p.(day := p.day + 1)) == DayNumber(era, p) + 1
  {
  }

  lemma {:induction false} NextYearCivil(date: Date, era: int, p: Place, d: int, b: int)
    requires Stands(date, era, p, 11, d, b) && d == Length(11, LeapYear(p))
    ensures CivilFromDays(DayNumber(era, p) + 1) == Date(date.y, date.m + 1, 1)
  {
    var n := NextYear(p);
    var e := if EraEnds(p) then era + 1 else era;
    YearEnds(date, era, p, d, b, e, n);
    StandsCivil(Date(date.y, date.m + 1, 1), e, n, 0, 1, 0);
  }

  lemma {:induction false} NextInYearCivil(date: Date, era: int, p: Place, mp: int, d: int, b: int, next: Date,
      mp': int, d': int, b': int)
    requires Stands(date, era, p, mp, d, b) && Stands(next, era, p.(day := p.day + 1), mp', d', b')
    ensures CivilFromDays(DayNumber(era, p) + 1) == next
  {
    NextDayNumber(era, p);
    StandsCivil(next, era, p.(day := p.day + 1), mp', d', b');
  }

  // Where the next date stands.
  lemma {:induction false} NextStands(date: Date, era: int, p: Place, mp: int, d: int, b: int, next: Date)
    requires Stands(date, era, p, mp, d, b)
    requires next == if date.d < Length(mp, LeapYear(p)) then Date(date.y, date.m, date.d + 1)
                     else if date.m < 12 then Date(date.y, date.m + 1, 1) else Date(date.y + 1, 1, 1)
    ensures CivilFromDays(DayNumber(era, p) + 1) == next
  {
    if d < Length(mp, LeapYear(p)) {
      NextInMonth(date, era, p, mp, d, b);
      NextInYearCivil(date, era, p, mp, d, b, next, mp, d + 1, b);
    } else if mp < 11 {
      NextMonth(date, era, p, mp, d, b, Before(mp + 1));
      NextInYearCivil(date, era, p, mp, d, b, next, mp + 1, 1, Before(mp + 1));
    } else {
      NextYearCivil(date, era, p, d, b);
    }
  }

  // The next day number is the next calendar date.
  lemma {:induction false} NextDay(days: int)
    ensures CivilFromDays(days + 1) == NextDate(CivilFromDays(days))
  {
    var date, era, p, mp, d, b := DayStands(days);
    StandsCivil(date, era, p, mp, d, b);
    StandsReal(date, era, p, mp, d, b);
    var length := Length(mp, LeapYear(p));
    var next := if date.d < length then Date(date.y, date.m, date.d + 1)
                else if date.m < 12 then Date(date.y, date.m + 1, 1) else Date(date.y + 1, 1, 1);
    NextIs(date, length, next);
    NextStands(date, era, p, mp, d, b, next);
  }

  // Day 0 is the first of January 1970: with the next day's date, this fixes every date.
  lemma {:induction false} Epoch()
    ensures DaysFromCivil(Date(1970, 1, 1)) == 0 && CivilFromDays(0) == Date(1970, 1, 1)
  {
    var date, p := Date(1970, 1, 1), Place(3, 17, 1, 306);
    StandsDays(date, 4, p, 10, 1, 306);
    StandsCivil(date, 4, p, 10, 1, 306);
  }

  lemma {:induction false} DayValid(days: int)
    requires -719162 <= days <= 2932896
    ensures ValidCivil(CivilFromDays(days))
  {
    var date, era, p, mp, d, b := DayStands(days);
    StandsCivil(date, era, p, mp, d, b);
    StandsReal(date, era, p, mp, d, b);
    DayBounds(p);
    assert 0 <= era <= 24;
    if era == 0 && Year(p) == 0 { LateMonth(mp, d, b); }
    if era == 24 { LastYear(p); LateMonth(mp, d, b); }
  }

  // January is more than 305 days after the first of March, December less than 306.
  lemma {:induction false} LateMonth(mp: int, d: int, b: int)
    requires 0 <= mp <= 11 && 1 <= d <= Length(mp, true) && b == Before(mp)
    ensures b + d - 1 >= 306 <==> mp >= 10
  {
    if mp == 0 { } else if mp == 1 { } else if mp == 2 { } else if mp == 3 { } else if mp == 4 { } else if mp == 5 { }
    else if mp == 6 { } else if mp == 7 { } else if mp == 8 { } else if mp == 9 { } else if mp == 10 { } else { }
  }

  lemma {:induction false} LastYear(p: Place)
    requires Placed(p) && Day(p) <= 146036
    ensures Year(p) < 399 || p.day <= 305
  {
  }

  lemma {:induction false} DayBoundsOf(date: Date)
    requires ValidCivil(date)
    ensures -719162 <= DaysFromCivil(date) <= 2932896
  {
    var era, p, mp, b := DateStands(date);
    StandsDays(date, era, p, mp, date.d, b);
    DayBounds(p);
    LateMonth(mp, date.d, b);
    assert -1 <= era <= 24;
    if era == 24 && p.day <= 305 { BeforeJanuary(p); }
  }

  // The days of the years 1 to 9999: these and no others have a valid date.
  lemma {:induction false} YearBounds(days: int)
    ensures ValidCivil(CivilFromDays(days)) <==> -719162 <= days <= 2932896
  {
    if -719162 <= days <= 2932896 { DayValid(days); }
    if ValidCivil(CivilFromDays(days)) {
      DayBoundsOf(CivilFromDays(days));
      DayInverse(days);
    }
  }

  lemma {:induction false} BeforeJanuary(p: Place)
    requires Placed(p) && p.day <= 305
    ensures Day(p) <= 146036
  {
  }
}
