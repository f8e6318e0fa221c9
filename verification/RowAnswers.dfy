/** The examples of the format's own document (row/ROW.t, section 6): each value's text and its bytes.
    A text is given as characters, bytes as numbers. */
module RowAnswers {
  import opened Bytes
  import opened Row
  import opened RowText
  import opened RowDigits
  import opened RowTimes
  import Civil
  import Lz4s
  import Utf8

  function Ascii(s: string): (t: Text)
    requires forall i :: 0 <= i < |s| ==> s[i] < 128 as char
    ensures |t| == |s| && forall i :: 0 <= i < |s| ==> t[i] == s[i] as int
  {
    seq(|s|, i requires 0 <= i < |s| => s[i] as int)
  }

  // ---------- digits, varints and bytes, one at a time ----------

  lemma {:induction false} OneDigit(n: nat)
    requires n < 10
    ensures Digits(n) == [48 + n]
  {
  }

  lemma {:induction false} MoreDigits(n: nat, q: nat, r: nat)
    requires q > 0 && r < 10 && n == 10 * q + r
    ensures Digits(n) == Digits(q) + [48 + r]
  {
    assert Tenth(n) == q;
  }

  lemma {:induction false} TwoDigits(n: nat, a: nat, b: nat)
    requires 0 < a < 10 && b < 10 && n == 10 * a + b
    ensures Digits(n) == [48 + a, 48 + b]
  {
    OneDigit(a);
    MoreDigits(n, a, b);
  }

  lemma {:induction false} ThreeDigits(n: nat, a: nat, b: nat, c: nat)
    requires 0 < a < 10 && b < 10 && c < 10 && n == 100 * a + 10 * b + c
    ensures Digits(n) == [48 + a, 48 + b, 48 + c]
  {
    TwoDigits(10 * a + b, a, b);
    MoreDigits(n, 10 * a + b, c);
  }

  lemma {:induction false} FourDigits(n: nat, a: nat, b: nat, c: nat, d: nat)
    requires 0 < a < 10 && b < 10 && c < 10 && d < 10 && n == 1000 * a + 100 * b + 10 * c + d
    ensures Digits(n) == [48 + a, 48 + b, 48 + c, 48 + d]
  {
    ThreeDigits(100 * a + 10 * b + c, a, b, c);
    MoreDigits(n, 100 * a + 10 * b + c, d);
  }

  lemma {:induction false} PadTwo(n: nat, a: nat, b: nat)
    requires a < 10 && b < 10 && n == 10 * a + b
    ensures Pad(n, 2) == [48 + a, 48 + b]
  {
    if a == 0 {
      OneDigit(n);
      assert Zeros(1) == Zeros(0) + [48];
    } else {
      TwoDigits(n, a, b);
    }
  }

  lemma {:induction false} OneByte(u: nat)
    requires u < 128
    ensures Uvarint(u) == [u]
  {
  }

  lemma {:induction false} MoreBytes(u: nat, q: nat, r: nat)
    requires q > 0 && r < 128 && u == 128 * q + r
    ensures Uvarint(u) == [128 + r] + Uvarint(q)
  {
    assert Shift7(u) == q;
  }

  lemma {:induction false} TwoBytes(u: nat, a: nat, b: nat)
    requires a < 128 && 0 < b < 128 && u == 128 * b + a
    ensures Uvarint(u) == [128 + a, b]
  {
    OneByte(b);
    MoreBytes(u, b, a);
  }

  lemma {:induction false} ThreeBytes(u: nat, a: nat, b: nat, c: nat)
    requires a < 128 && b < 128 && 0 < c < 128 && u == 128 * (128 * c + b) + a
    ensures Uvarint(u) == [128 + a, 128 + b, c]
  {
    TwoBytes(128 * c + b, b, c);
    MoreBytes(u, 128 * c + b, a);
  }

  lemma {:induction false} FourBytes(u: nat, a: nat, b: nat, c: nat, d: nat)
    requires a < 128 && b < 128 && c < 128 && 0 < d < 128 && u == 128 * (128 * (128 * d + c) + b) + a
    ensures Uvarint(u) == [128 + a, 128 + b, 128 + c, d]
  {
    ThreeBytes(128 * (128 * d + c) + b, b, c, d);
    MoreBytes(u, 128 * (128 * d + c) + b, a);
  }

  // ---------- each kind's text, tag and payload ----------

  lemma {:induction false} Strings(w: World, s: seq<byte>)
    requires Valid(Str(s), false)
    ensures ItemText(w, Str(s)) == Quote(s)
    ensures |s| <= 241 ==> ItemBytes(Str(s)) == [|s|] + s
    ensures |s| > 241 ==> ItemBytes(Str(s)) == LongString(s, Uvarint(|s|), Lz4s.CompressSpec(s))
  {
  }

  // Compressed when that is the shorter.
  function LongString(s: seq<byte>, size: seq<byte>, z: seq<byte>): seq<byte> {
    if |Uvarint(|z|) + z| < |s| then [0xf2] + (size + (Uvarint(|z|) + z)) else [0xfe] + (size + s)
  }

  lemma {:induction false} Numbers(w: World, n: int, scale: nat, bits: nat)
    ensures ItemText(w, Int(n)) == FormatInt(n) && ItemText(w, Decimal(n, scale)) == FormatDecimal(n, scale)
    ensures ItemText(w, Float(bits)) == w.show(bits)
    ensures Valid(Int(n), false) ==> ItemBytes(Int(n)) == [0xf6] + Uvarint(Zigzag(n))
    ensures Valid(Decimal(n, scale), false) ==> ItemBytes(Decimal(n, scale)) == [0xf7] + ([scale] + Uvarint(Zigzag(n)))
    ensures Valid(Float(bits), false) ==> ItemBytes(Float(bits)) == [0xf8] + LittleEndian(bits, 8)
  {
  }

  lemma {:induction false} Dates(w: World, n: int)
    ensures ItemText(w, Date(n)) == FormatDate(n)
    ensures Valid(Date(n), false) ==> ItemBytes(Date(n)) == [0xf9] + Uvarint(Zigzag(n))
  {
  }

  lemma {:induction false} Datetimes(w: World, n: int)
    ensures ItemText(w, Datetime(n)) == FormatDatetime(n)
    ensures Valid(Datetime(n), false) ==> ItemBytes(Datetime(n)) == [0xfa] + Uvarint(Zigzag(n))
  {
  }

  lemma {:induction false} Times(w: World, n: nat)
    ensures ItemText(w, Time(n)) == FormatTime(n)
    ensures Valid(Time(n), false) ==> ItemBytes(Time(n)) == [0xfb] + Uvarint(n)
  {
  }

  lemma {:induction false} Durations(w: World, n: int)
    ensures ItemText(w, Duration(n)) == FormatDuration(n)
    ensures Valid(Duration(n), false) ==> ItemBytes(Duration(n)) == [0xfc] + Uvarint(Zigzag(n))
  {
  }

  lemma {:induction false} Blobs(w: World, b: seq<byte>)
    ensures ItemText(w, Blob(b)) == [48, 120] + Hex(b)
    ensures Valid(Blob(b), false) ==> ItemBytes(Blob(b)) == [0xfd] + (Uvarint(|b|) + b)
  {
  }

  // Between brackets, and counted.
  lemma {:induction false} Lists(w: World, items: seq<Val>)
    requires Valid(List(items), false)
    ensures ItemText(w, List(items)) == [91] + ScalarsText(w, items) + [93]
    ensures ItemBytes(List(items)) == [0xff] + (Uvarint(|items|) + ScalarsBytes(items))
  {
  }

  // ---------- the examples ----------

  // none, false, true
  lemma {:induction false} Words(w: World)
    ensures ItemText(w, Val.None) == Ascii("none") && ItemBytes(Val.None) == [0xf3]
    ensures ItemText(w, False) == Ascii("false") && ItemBytes(False) == [0xf4]
    ensures ItemText(w, True) == Ascii("true") && ItemBytes(True) == [0xf5]
  {
  }

  // "EUR"
  lemma {:induction false} AString(w: World, s: Text)
    requires s == Ascii("EUR")
    ensures Valid(Str(s), false) && ItemText(w, Str(s)) == Ascii("\"EUR\"")
            && ItemBytes(Str(s)) == [3, 0x45, 0x55, 0x52]
  {
    Plain(s);
  }

  lemma {:induction false} Plain(s: Text)
    requires |s| == 3 && forall i :: 0 <= i < 3 ==> 48 <= s[i] < 128 && s[i] != 92
    ensures Utf8.Valid(s) && Quote(s) == [34] + s + [34]
  {
    var two, one := s[1..], s[1..][1..];
    assert one[1..] == [];
    assert Utf8.Valid(one) && Escaped(one) == [one[0]] + [];
    assert Utf8.Valid(two) && Escaped(two) == [two[0]] + Escaped(one);
    assert Escaped(s) == [s[0]] + Escaped(two) == s;
  }

  // ""
  lemma {:induction false} NoText(w: World)
    ensures ItemText(w, Str([])) == Ascii("\"\"") && ItemBytes(Str([])) == [0]
  {
  }

  // A quote, a backslash and the control characters, each as its own escape.
  lemma {:induction false} Escapes()
    ensures Escape(34) == Ascii("\\\"") && Escape(92) == Ascii("\\\\") && Escape(8) == Ascii("\\b")
    ensures Escape(12) == Ascii("\\f") && Escape(10) == Ascii("\\n") && Escape(13) == Ascii("\\r")
    ensures Escape(9) == Ascii("\\t") && Escape(1) == Ascii("\\u0001") && Escape(31) == Ascii("\\u001f")
  {
  }

  // -7
  lemma {:induction false} Minus7(w: World, n: int)
    requires n == -7
    ensures ItemText(w, Int(n)) == Ascii("-7") && ItemBytes(Int(n)) == [0xf6, 0x0d]
  {
    OneDigit(-n);
    OneByte(Zigzag(n));
  }

  // 300
  lemma {:induction false} ThreeHundred(w: World, n: int)
    requires n == 300
    ensures ItemText(w, Int(n)) == Ascii("300") && ItemBytes(Int(n)) == [0xf6, 0xd8, 0x04]
  {
    ThreeDigits(n, 3, 0, 0);
    TwoBytes(Zigzag(n), 0x58, 4);
  }

  // 90.00
  lemma {:induction false} Money(w: World, n: int, scale: nat)
    requires n == 9000 && scale == 2
    ensures ItemText(w, Decimal(n, scale)) == Ascii("90.00")
    ensures ItemBytes(Decimal(n, scale)) == [0xf7, 2, 0xd0, 0x8c, 0x01]
  {
    Ninety(n, scale);
    ThreeBytes(Zigzag(n), 0x50, 0x0c, 1);
  }

  lemma {:induction false} Ninety(n: int, scale: nat)
    requires n == 9000 && scale == 2
    ensures FormatDecimal(n, scale) == Ascii("90.00")
  {
    FourDigits(n, 9, 0, 0, 0);
    assert Mantissa(Abs(n), scale) == [57, 48, 48, 48];
  }

  // 1500.
  lemma {:induction false} Yen(w: World, n: int, scale: nat)
    requires n == 1500 && scale == 0
    ensures ItemText(w, Decimal(n, scale)) == Ascii("1500.") && ItemBytes(Decimal(n, scale)) == [0xf7, 0, 0xb8, 0x17]
  {
    Hundreds(n, scale);
    TwoBytes(Zigzag(n), 0x38, 0x17);
  }

  lemma {:induction false} Hundreds(n: int, scale: nat)
    requires n == 1500 && scale == 0
    ensures FormatDecimal(n, scale) == Ascii("1500.")
  {
    FourDigits(n, 1, 5, 0, 0);
    assert Mantissa(Abs(n), scale) == [49, 53, 48, 48];
  }

  // -0.05
  lemma {:induction false} Cents(n: int, scale: nat)
    requires n == -5 && scale == 2
    ensures FormatDecimal(n, scale) == Ascii("-0.05") && SignedBytes(n) == [0x09]
  {
    OneDigit(-n);
    OneByte(Zigzag(n));
    assert Zeros(2) == Zeros(1) + [48] && Zeros(1) == Zeros(0) + [48];
    assert Mantissa(-n, scale) == [48, 48, 53];
  }

  lemma {:induction false} DateIs(n: int, y: nat, m: nat, d: nat)
    requires Civil.ValidCivil(Civil.Date(y, m, d)) && Civil.DaysFromCivil(Civil.Date(y, m, d)) == n
    ensures FormatDate(n) == DateText(y, m, d)
  {
    Civil.DateInverse(Civil.Date(y, m, d));
  }

  // 2026-10-08
  lemma {:induction false} ADate(n: int)
    requires n == 20734
    ensures FormatDate(n) == Ascii("2026-10-08") && SignedBytes(n) == [0xfc, 0xc3, 0x02]
  {
    October(n);
    ThreeBytes(Zigzag(n), 0x7c, 0x43, 2);
  }

  lemma {:induction false} October(n: int)
    requires n == 20734
    ensures FormatDate(n) == Ascii("2026-10-08")
  {
    DateIs(n, 2026, 10, 8);
    OctoberText(2026, 10, 8);
  }

  lemma {:induction false} OctoberText(y: nat, m: nat, d: nat)
    requires y == 2026 && m == 10 && d == 8
    ensures DateText(y, m, d) == Ascii("2026-10-08")
  {
    FourDigits(y, 2, 0, 2, 6);
    PadTwo(m, 1, 0);
    PadTwo(d, 0, 8);
  }

  // 1969-12-31
  lemma {:induction false} TheEve(n: int)
    requires n == -1
    ensures FormatDate(n) == Ascii("1969-12-31") && SignedBytes(n) == [0x01]
  {
    DateIs(n, 1969, 12, 31);
    EveText(1969, 12, 31);
    OneByte(Zigzag(n));
  }

  lemma {:induction false} EveText(y: nat, m: nat, d: nat)
    requires y == 1969 && m == 12 && d == 31
    ensures DateText(y, m, d) == Ascii("1969-12-31")
  {
    FourDigits(y, 1, 9, 6, 9);
    PadTwo(m, 1, 2);
    PadTwo(d, 3, 1);
  }

  // 09:30:00.000
  lemma {:induction false} ATime(w: World, n: nat)
    requires n == 34200000
    ensures ItemText(w, Time(n)) == Ascii("09:30:00.000") && ItemBytes(Time(n)) == [0xfb, 0xc0, 0xb3, 0xa7, 0x10]
  {
    HalfPastNine(n);
    FourBytes(n, 0x40, 0x33, 0x27, 0x10);
  }

  lemma {:induction false} HalfPastNine(n: nat)
    requires n == 34200000
    ensures FormatTime(n) == Ascii("09:30:00.000")
  {
    var h, m, s, ms := Over(n, 3600000), Mod(Over(n, 60000), 60), Mod(Over(n, 1000), 60), Mod(n, 1000);
    assert h == 9 && m == 30 && s == 0 && ms == 0;
    PadTwo(h, 0, 9);
    PadTwo(m, 3, 0);
    PadTwo(s, 0, 0);
    PadNone(ms);
  }

  lemma {:induction false} PadNone(ms: nat)
    requires ms == 0
    ensures Pad(ms, 3) == [48, 48, 48]
  {
    OneDigit(ms);
    assert Zeros(2) == Zeros(1) + [48] && Zeros(1) == Zeros(0) + [48];
  }

  // 2026-10-08T09:30:00.000Z
  lemma {:induction false} ADatetime(n: int, day: int, ms: nat)
    requires day == 20734 && ms == 34200000 && n == 86400000 * day + ms
    ensures FormatDatetime(n) == Ascii("2026-10-08T09:30:00.000Z")
  {
    Halves(n, day, ms);
    Joined(FormatDatetime(n), FormatDate(day), FormatTime(ms)) by {
      October(day);
      HalfPastNine(ms);
    }
  }

  lemma {:induction false} Halves(n: int, day: int, ms: nat)
    requires n == 86400000 * day + ms && ms < 86400000
    ensures FormatDatetime(n) == FormatDate(day) + [84] + FormatTime(ms) + [90]
  {
    assert DayOf(n) == day && InDay(n) == ms;
  }

  lemma {:induction false} Joined(t: Text, date: Text, time: Text)
    requires t == date + [84] + time + [90] && date == Ascii("2026-10-08") && time == Ascii("09:30:00.000")
    ensures t == Ascii("2026-10-08T09:30:00.000Z")
  {
  }

  lemma {:induction false} ADatetimeBytes(n: int, most: nat, all: nat)
    requires n == 86400000 * 20734 + 34200000
    requires most == 128 * (128 * (128 * 0x68 + 0x23) + 0x2d) + 0x49 && all == 128 * most + 0x07
    ensures Uvarint(Zigzag(n)) == [0x80, 0x87, 0xc9, 0xad, 0xa3, 0x68]
  {
    FourBytes(most, 0x49, 0x2d, 0x23, 0x68);
    MoreBytes(all, most, 0x07);
    MoreBytes(Zigzag(n), all, 0x00);
  }

  // 9.05e1 and 1e-3, by their bits
  lemma {:induction false} Floats(a: nat, b: nat)
    requires a == 0x4056_a000_0000_0000 && b == 0x3f50_624d_d2f1_a9fc
    ensures LittleEndian(a, 8) == [0x00, 0x00, 0x00, 0x00, 0x00, 0xa0, 0x56, 0x40]
    ensures LittleEndian(b, 8) == [0xfc, 0xa9, 0xf1, 0xd2, 0x4d, 0x62, 0x50, 0x3f]
  {
    LowFirst(a, [0x00, 0x00, 0x00, 0x00, 0x00, 0xa0, 0x56, 0x40]);
    LowFirst(b, [0xfc, 0xa9, 0xf1, 0xd2, 0x4d, 0x62, 0x50, 0x3f]);
  }

  // The value of eight bytes, the low one first.
  function Eight(b: seq<byte>): nat
    requires |b| == 8
  {
    b[0] as int + 0x100 * b[1] as int + 0x1_0000 * b[2] as int + 0x100_0000 * b[3] as int + 0x1_0000_0000 * b[4] as int
    + 0x100_0000_0000 * b[5] as int + 0x1_0000_0000_0000 * b[6] as int + 0x100_0000_0000_0000 * b[7] as int
  }

  lemma {:induction false} LowFirst(v: nat, b: seq<byte>)
    requires |b| == 8 && v == Eight(b)
    ensures LittleEndian(v, 8) == b
  {
    FromLittleEndianInverse(b);
    Halved(b[..4], b[4..], b);
  }

  lemma {:induction false} Halved(low: seq<byte>, high: seq<byte>, b: seq<byte>)
    requires |low| == 4 && |high| == 4 && b == low + high
    ensures FromLittleEndian(b) == Eight(b)
  {
    FourOf(high, []);
    FourOf(low, high);
    assert high + [] == high;
  }

  lemma {:induction false} FourOf(b: seq<byte>, rest: seq<byte>)
    requires |b| == 4
    ensures FromLittleEndian(b + rest) == b[0] as int + 0x100 * b[1] as int + 0x1_0000 * b[2] as int
                                          + 0x100_0000 * b[3] as int + 0x1_0000_0000 * FromLittleEndian(rest)
  {
    assert b == [b[0], b[1], b[2], b[3]];
    OneOf(b[3], rest);
    OneOf(b[2], [b[3]] + rest);
    OneOf(b[1], [b[2]] + ([b[3]] + rest));
    OneOf(b[0], [b[1]] + ([b[2]] + ([b[3]] + rest)));
    assert b + rest == [b[0]] + ([b[1]] + ([b[2]] + ([b[3]] + rest)));
  }

  lemma {:induction false} OneOf(x: byte, rest: seq<byte>)
    ensures FromLittleEndian([x] + rest) == x as int + 256 * FromLittleEndian(rest)
  {
    assert ([x] + rest)[1..] == rest;
  }

  // 0x
  lemma {:induction false} NoBytes(w: World)
    ensures ItemText(w, Blob([])) == Ascii("0x") && ItemBytes(Blob([])) == [0xfd, 0x00]
  {
  }

  // -0.5s
  lemma {:induction false} HalfSecond(n: int)
    requires n == -500
    ensures FormatDuration(n) == Ascii("-0.5s") && SignedBytes(n) == [0xe7, 0x07]
  {
    TwoBytes(Zigzag(n), 0x67, 0x07);
    var ms := Abs(n);
    var left := Mod(ms, 60000);
    assert Over(ms, 3600000) == 0 && Over(Mod(ms, 3600000), 60000) == 0 && Over(left, 1000) == 0
        && Mod(left, 1000) == 500;
    HalfText(Over(left, 1000), Mod(left, 1000));
  }

  lemma {:induction false} HalfText(s: nat, frac: nat)
    requires s == 0 && frac == 500
    ensures DurationText(0, 0, s, frac) == Ascii("0.5s")
  {
    OneDigit(s);
    ThreeDigits(frac, 5, 0, 0);
    var t := Pad(frac, 3);
    assert t == [53, 48, 48] && TrimZeros(t) == TrimZeros(t[..2]) == TrimZeros(t[..2][..1]) == [53];
  }

  // 0s
  lemma {:induction false} NoTime(w: World, n: int)
    requires n == 0
    ensures ItemText(w, Duration(n)) == Ascii("0s") && ItemBytes(Duration(n)) == [0xfc, 0x00]
  {
    var ms := Abs(n);
    assert Over(ms, 3600000) == 0 && Mod(ms, 3600000) == 0 && Mod(ms, 60000) == 0;
    OneDigit(ms);
    OneByte(Zigzag(n));
  }

  // 1h30m15.25s
  lemma {:induction false} LongDuration(n: int)
    requires n == 5415250
    ensures FormatDuration(n) == Ascii("1h30m15.25s") && SignedBytes(n) == [0xa4, 0x85, 0x95, 0x05]
  {
    HourAndHalf(n);
    FourBytes(Zigzag(n), 0x24, 0x05, 0x15, 0x05);
  }

  lemma {:induction false} HourAndHalf(n: int)
    requires n == 5415250
    ensures FormatDuration(n) == Ascii("1h30m15.25s")
  {
    var ms := Abs(n);
    var left := Mod(ms, 60000);
    var h, m, s, frac := Over(ms, 3600000), Over(Mod(ms, 3600000), 60000), Over(left, 1000), Mod(left, 1000);
    assert h == 1 && m == 30 && s == 15 && frac == 250;
    HourText(h, m, s, frac);
  }

  lemma {:induction false} HourText(h: nat, m: nat, s: nat, frac: nat)
    requires h == 1 && m == 30 && s == 15 && frac == 250
    ensures DurationText(h, m, s, frac) == Ascii("1h30m15.25s")
  {
    OneDigit(h);
    TwoDigits(m, 3, 0);
    Quarter(s, frac);
  }

  lemma {:induction false} Quarter(s: nat, frac: nat)
    requires s == 15 && frac == 250
    ensures SecondsText(s, frac) == Ascii("15.25s")
  {
    TwoDigits(s, 1, 5);
    ThreeDigits(frac, 2, 5, 0);
    var t := Pad(frac, 3);
    assert t == [50, 53, 48] && TrimZeros(t) == TrimZeros(t[..2]) == t[..2];
  }

  // 0x00ff
  lemma {:induction false} ABlob(w: World, b: seq<byte>)
    requires b == [0, 255]
    ensures ItemText(w, Blob(b)) == Ascii("0x00ff") && ItemBytes(Blob(b)) == [0xfd, 2, 0x00, 0xff]
  {
    assert b[1..] == [255] && b[1..][1..] == [];
    assert Hex(b[1..]) == [102, 102] + Hex([]);
    OneByte(|b|);
  }

  // ["ben", 1]
  lemma {:induction false} AList(w: World, ben: Text, n: int)
    requires ben == Ascii("ben") && n == 1
    ensures ScalarsText(w, [Str(ben), Int(n)]) == Ascii("\"ben\", 1")
    ensures Utf8.Valid(ben) && ScalarsBytes([Str(ben), Int(n)]) == [3, 0x62, 0x65, 0x6e, 0xf6, 2]
  {
    Plain(ben);
    BenText(w, ben, n);
    BenBytes(ben, n);
  }

  lemma {:induction false} BenText(w: World, ben: Text, n: int)
    requires ben == Ascii("ben") && n == 1 && Quote(ben) == [34] + ben + [34]
    ensures ScalarsText(w, [Str(ben), Int(n)]) == Ascii("\"ben\", 1")
  {
    OneDigit(n);
    assert [Str(ben), Int(n)][1..] == [Int(n)];
    assert ScalarsText(w, [Int(n)]) == [49];
  }

  lemma {:induction false} BenBytes(ben: Text, n: int)
    requires ben == Ascii("ben") && n == 1 && Utf8.Valid(ben)
    ensures ScalarsBytes([Str(ben), Int(n)]) == [3, 0x62, 0x65, 0x6e, 0xf6, 2]
  {
    OneByte(Zigzag(n));
    assert [Str(ben), Int(n)][1..] == [Int(n)];
    assert ScalarsBytes([Int(n)]) == [0xf6, 2] + ScalarsBytes([]);
  }

  // []
  lemma {:induction false} NoItems(w: World)
    ensures ItemText(w, List([])) == Ascii("[]") && ItemBytes(List([])) == [0xff, 0]
  {
  }
}
