/** ROW's text notation (row/text.go): the one spelling of each value, and what the parser makes of
    a line. A float's digits are given: how one is printed, and what a token reads as. */
module RowText {
  import opened Bytes
  import opened Row
  import Civil
  import Utf8

  type Text = seq<byte>

  // ---------- digits ----------

  predicate IsDigit(c: byte) { 48 <= c <= 57 }

  predicate AllDigits(t: Text) { forall k :: 0 <= k < |t| ==> IsDigit(t[k]) }

  // n divided by ten; by repeated subtraction, which keeps the proofs linear.
  function Tenth(n: nat): (q: nat)
    ensures 10 * q <= n < 10 * q + 10
  {
    if n < 10 then 0 else 1 + Tenth(n - 10)
  }

  function Digits(n: nat): (t: Text)
    ensures t != []
    decreases n
  {
    if n < 10 then [48 + n] else Digits(Tenth(n)) + [48 + (n - 10 * Tenth(n))]
  }

  // The number a run of digits says.
  function ValueOf(t: Text): nat
    requires AllDigits(t)
    decreases |t|
  {
    if t == [] then 0 else 10 * ValueOf(t[..|t| - 1]) + (t[|t| - 1] as int - 48)
  }

  function Zeros(k: nat): (t: Text)
    ensures |t| == k && forall i :: 0 <= i < k ==> t[i] == 48
  {
    if k == 0 then [] else Zeros(k - 1) + [48]
  }

  function Pad(n: nat, width: nat): Text {
    if |Digits(n)| < width then Zeros(width - |Digits(n)|) + Digits(n) else Digits(n)
  }

  function Abs(n: int): nat { if n < 0 then -n else n }

  function Sign(n: int): Text { if n < 0 then [45] else [] }

  function Over(a: nat, b: nat): nat
    requires b > 0
  {
    a / b
  }

  function Mod(a: nat, b: nat): nat
    requires b > 0
  {
    a % b
  }

  // ---------- the spellings ----------

  datatype World = World(show: nat -> Text, read: Text -> nat)

  function HexDigit(n: nat): byte
    requires n < 16
  {
    if n < 10 then 48 + n else 87 + n
  }

  function Hex(b: Text): Text
    decreases |b|
  {
    if b == [] then [] else [HexDigit(Over(b[0], 16)), HexDigit(Mod(b[0], 16))] + Hex(b[1..])
  }

  // The escape of a byte of a string: only what JSON requires.
  function Escape(c: byte): Text {
    if c == 34 then [92, 34]            // \"
    else if c == 92 then [92, 92]       // \\
    else if c == 8 then [92, 98]        // \b
    else if c == 12 then [92, 102]      // \f
    else if c == 10 then [92, 110]      // \n
    else if c == 13 then [92, 114]      // \r
    else if c == 9 then [92, 116]       // \t
    else if c < 32 then [92, 117, 48, 48, HexDigit(Over(c, 16)), HexDigit(Mod(c, 16))]
    else [c]
  }

  function Escaped(s: Text): Text
    decreases |s|
  {
    if s == [] then [] else Escape(s[0]) + Escaped(s[1..])
  }

  function Quote(s: Text): Text { [34] + Escaped(s) + [34] }

  function FormatInt(n: int): Text { Sign(n) + Digits(Abs(n)) }

  // The digits of a decimal with at least one before its point.
  function Mantissa(n: nat, scale: nat): (t: Text)
    ensures |t| > scale
  {
    if |Digits(n)| <= scale then Zeros(scale + 1 - |Digits(n)|) + Digits(n) else Digits(n)
  }

  function FormatDecimal(n: int, scale: nat): Text {
    var s := Mantissa(Abs(n), scale);
    Sign(n) + s[..|s| - scale] + [46] + s[|s| - scale..]
  }

  function DateText(y: nat, m: nat, d: nat): Text { Pad(y, 4) + [45] + Pad(m, 2) + [45] + Pad(d, 2) }

  function FormatDate(day: int): Text {
    var date := Civil.CivilFromDays(day);
    DateText(Abs(date.y), Abs(date.m), Abs(date.d))
  }

  function TimeText(h: nat, m: nat, s: nat, ms: nat): Text {
    Pad(h, 2) + [58] + Pad(m, 2) + [58] + Pad(s, 2) + [46] + Pad(ms, 3)
  }

  function FormatTime(ms: nat): Text {
    TimeText(Over(ms, 3600000), Mod(Over(ms, 60000), 60), Mod(Over(ms, 1000), 60), Mod(ms, 1000))
  }

  // floorDiv by the length of a day; by repeated subtraction, which keeps the proofs linear.
  function DayOf(n: int): (q: int)
    ensures 86400000 * q <= n < 86400000 * q + 86400000
    decreases n < 0, Abs(n)
  {
    if n < 0 then DayOf(n + 86400000) - 1 else if n < 86400000 then 0 else 1 + DayOf(n - 86400000)
  }

  function InDay(n: int): nat { n - 86400000 * DayOf(n) }

  function FormatDatetime(n: int): Text { FormatDate(DayOf(n)) + [84] + FormatTime(InDay(n)) + [90] }

  function TrimZeros(t: Text): Text
    decreases |t|
  {
    if t != [] && t[|t| - 1] == 48 then TrimZeros(t[..|t| - 1]) else t
  }

  function SecondsText(s: nat, frac: nat): Text {
    Digits(s) + (if frac > 0 then [46] + TrimZeros(Pad(frac, 3)) else []) + [115]
  }

  // Hours, minutes, seconds and thousandths of a duration without its sign.
  function DurationText(h: nat, m: nat, s: nat, frac: nat): Text {
    (if h > 0 then Digits(h) + [104] else [])
    + (if m > 0 then Digits(m) + [109] else [])
    + if s > 0 || frac > 0 || (h == 0 && m == 0) then SecondsText(s, frac) else []
  }

  function FormatDuration(n: int): Text {
    var ms := Abs(n);
    var left := Mod(ms, 60000);
    Sign(n) + DurationText(Over(ms, 3600000), Over(Mod(ms, 3600000), 60000), Over(left, 1000), Mod(left, 1000))
  }

  const NONE: Text := [110, 111, 110, 101]
  const FALSE: Text := [102, 97, 108, 115, 101]
  const TRUE: Text := [116, 114, 117, 101]

  // An item that is no string and no list.
  function Bareword(w: World, v: Val): Text {
    match v
    case None => NONE
    case False => FALSE
    case True => TRUE
    case Int(n) => FormatInt(n)
    case Decimal(n, scale) => FormatDecimal(n, scale)
    case Float(bits) => w.show(bits)
    case Date(n) => FormatDate(n)
    case Datetime(n) => FormatDatetime(n)
    case Time(n) => FormatTime(Abs(n))
    case Duration(n) => FormatDuration(n)
    case Blob(s) => [48, 120] + Hex(s)
    case _ => []
  }

  function ScalarText(w: World, v: Val): Text { if v.Str? then Quote(v.s) else Bareword(w, v) }

  function ScalarsText(w: World, items: seq<Val>): Text {
    if items == [] then []
    else if |items| == 1 then ScalarText(w, items[0])
    else ScalarText(w, items[0]) + [44, 32] + ScalarsText(w, items[1..])
  }

  function ItemText(w: World, v: Val): Text {
    if v.List? then [91] + ScalarsText(w, v.items) + [93] else ScalarText(w, v)
  }

  // formatVals
  function FormatVals(w: World, vs: seq<Val>): Text {
    if vs == [] then []
    else if |vs| == 1 then ItemText(w, vs[0])
    else ItemText(w, vs[0]) + [32] + FormatVals(w, vs[1..])
  }

  // ---------- the shapes of bare items ----------

  // The length of the run of digits t starts with.
  function DigitRun(t: Text): (n: nat)
    ensures n <= |t| && AllDigits(t[..n]) && (n < |t| ==> !IsDigit(t[n]))
  {
    if t == [] || !IsDigit(t[0]) then 0 else
      assert t[..1 + DigitRun(t[1..])] == [t[0]] + t[1..][..DigitRun(t[1..])];
      1 + DigitRun(t[1..])
  }

  predicate Minus(t: Text) { t != [] && t[0] == 45 }

  function Unsigned(t: Text): Text { if Minus(t) then t[1..] else t }

  // A fixed shape: a 100 ('d') for each digit, any other byte itself.
  predicate Shaped(t: Text, shape: Text) {
    |t| == |shape| && forall i :: 0 <= i < |shape| ==> if shape[i] == 100 then IsDigit(t[i]) else t[i] == shape[i]
  }

  const DATE: Text := [100, 100, 100, 100, 45, 100, 100, 45, 100, 100]
  const TIME: Text := [100, 100, 58, 100, 100, 58, 100, 100, 46, 100, 100, 100]
  const DATETIME: Text := DATE + [84] + TIME + [90]

  // A number and its unit at the start of t: the digits, or none.
  function UnitDigits(t: Text, unit: byte): (ds: Text)
    ensures AllDigits(ds) && |ds| < |t| + 1 && (ds != [] ==> |ds| < |t|)
  {
    var n := DigitRun(t);
    if 0 < n < |t| && t[n] == unit then t[..n] else []
  }

  function AfterUnit(t: Text, unit: byte): Text {
    var ds := UnitDigits(t, unit);
    if ds == [] then t else t[|ds| + 1..]
  }

  datatype Parts = NoParts | Parts(neg: bool, h: Text, m: Text, s: Text, frac: Text)

  // The seconds that end a duration, after its sign, hours and minutes.
  function Seconds(neg: bool, h: Text, m: Text, t: Text): Parts {
    var j := DigitRun(t);
    if j == 0 then if t == [] then Parts(neg, h, m, [], []) else NoParts
    else if j < |t| && t[j] == 46 then
      var n := DigitRun(t[j + 1..]);
      if n < 1 || n > 3 || t[j + 1 + n..] != [115] then NoParts else Parts(neg, h, m, t[..j], t[j + 1..][..n])
    else if t[j..] != [115] then NoParts
    else Parts(neg, h, m, t[..j], [])
  }

  // matchDuration
  function MatchDuration(t: Text): Parts {
    var u := Unsigned(t);
    var v := AfterUnit(u, 104);
    Seconds(Minus(t), UnitDigits(u, 104), UnitDigits(v, 109), AfterUnit(v, 109))
  }

  // isFloat
  predicate IsFloat(t: Text) {
    var u := Unsigned(t);
    var i := DigitRun(u);
    i > 0 &&
    var f := if i < |u| && u[i] == 46 then DigitRun(u[i + 1..]) else 0;
    !(i < |u| && u[i] == 46 && f == 0) &&
    IsExponent(u[i + if f > 0 then 1 + f else 0..])
  }

  predicate IsExponent(e: Text) {
    e != [] && (e[0] == 101 || e[0] == 69) &&
    var x := if |e| > 1 && (e[1] == 43 || e[1] == 45) then e[2..] else e[1..];
    x != [] && DigitRun(x) == |x|
  }

  // matchDecimal: the digits before the point, if t is a sign, digits, a point and digits or none.
  function DecimalPoint(t: Text): (i: nat)
    ensures i > 0 ==>
            i < |Unsigned(t)| && AllDigits(Unsigned(t)[..i]) && Unsigned(t)[i] == 46
            && AllDigits(Unsigned(t)[i + 1..])
  {
    var u := Unsigned(t);
    var i := DigitRun(u);
    if i == 0 || i == |u| || u[i] != 46 || DigitRun(u[i + 1..]) != |u| - i - 1 then 0 else
      assert u[i + 1..][..|u| - i - 1] == u[i + 1..];
      i
  }

  // matchInt
  predicate IsInt(t: Text) { Unsigned(t) != [] && DigitRun(Unsigned(t)) == |Unsigned(t)| }

  function UnhexDigit(c: byte): (n: int)
    ensures -1 <= n < 16
  {
    if IsDigit(c) then c - 48
    else if 97 <= c <= 102 then c - 87
    else if 65 <= c <= 70 then c - 55
    else -1
  }

  predicate AllHex(t: Text) { forall k :: 0 <= k < |t| ==> UnhexDigit(t[k]) >= 0 }

  // matchBytes
  predicate IsBytes(t: Text) { |t| >= 2 && t[0] == 48 && (t[1] == 120 || t[1] == 88) && |t| % 2 == 0 && AllHex(t[2..]) }

  function Unhex(t: Text): Text
    requires AllHex(t)
    decreases |t|
  {
    if |t| < 2 then [] else [16 * UnhexDigit(t[0]) + UnhexDigit(t[1])] + Unhex(t[2..])
  }

  // ---------- reading a bare item ----------

  datatype Fault = T001 | T002 | Breaks(code: Code)

  datatype Got = Wrong(fault: Fault) | Got(v: Val)

  // digits: a number of at most 2^53-1.
  function ReadDigits(t: Text): Option<nat>
    requires AllDigits(t)
  {
    if ValueOf(t) > MAX_INT then Option.None else Some(ValueOf(t))
  }

  function ReadDate(t: Text): Got
    requires Shaped(t, DATE)
  {
    var date := Civil.Date(ValueOf(t[..4]), ValueOf(t[5..7]), ValueOf(t[8..10]));
    if Civil.ValidCivil(date) then Got(Date(Civil.DaysFromCivil(date))) else Wrong(Breaks(R003))
  }

  function ReadClock(t: Text): Got
    requires Shaped(t, TIME)
  {
    var h, m, s := ValueOf(t[..2]), ValueOf(t[3..5]), ValueOf(t[6..8]);
    if h > 23 || m > 59 || s > 59 then Wrong(Breaks(R003))
    else Got(Time(((h * 60 + m) * 60 + s) * 1000 + ValueOf(t[9..12])))
  }

  function ReadDatetime(t: Text): Got
    requires Shaped(t, DATETIME)
  {
    match ReadDate(t[..10])
    case Wrong(fault) => Wrong(fault)
    case Got(day) =>
      match ReadClock(t[11..23])
      case Wrong(fault) => Wrong(fault)
      case Got(ms) => Got(Datetime(day.n * 86400000 + ms.n))
  }

  // A part of a duration in milliseconds, if it is within the range.
  function PartMs(t: Text, unit: nat): Option<nat>
    requires AllDigits(t) && unit > 0
  {
    match ReadDigits(t)
    case None => Option.None
    case Some(n) => if n > Over(MAX_INT, unit) then Option.None else Some(n * unit)
  }

  function Signed(neg: bool, n: nat): int { if neg then -(n as int) else n }

  function ReadDuration(p: Parts): Got
    requires p.Parts? && AllDigits(p.h) && AllDigits(p.m) && AllDigits(p.s) && AllDigits(p.frac) && |p.frac| <= 3
  {
    var h, m, s := PartMs(p.h, 3600000), PartMs(p.m, 60000), PartMs(p.s, 1000);
    if h.None? || m.None? || s.None? then Wrong(Breaks(R003))
    else
      var frac := p.frac + Zeros(3 - |p.frac|);
      assert AllDigits(frac);
      var total := h.value + m.value + s.value + if p.frac == [] then 0 else ValueOf(frac);
      if total > MAX_INT then Wrong(Breaks(R003)) else Got(Duration(Signed(p.neg, total)))
  }

  ghost predicate PartsOk(p: Parts) {
    p.Parts? ==> AllDigits(p.h) && AllDigits(p.m) && AllDigits(p.s) && AllDigits(p.frac) && |p.frac| <= 3
  }

  lemma {:induction false} SecondsDigits(neg: bool, h: Text, m: Text, t: Text)
    requires AllDigits(h) && AllDigits(m)
    ensures PartsOk(Seconds(neg, h, m, t))
  {
    var j := DigitRun(t);
    if 0 < j < |t| && t[j] == 46 {
      var n := DigitRun(t[j + 1..]);
    }
  }

  lemma {:induction false} PartsDigits(t: Text)
    ensures PartsOk(MatchDuration(t))
  {
    var u := Unsigned(t);
    var v := AfterUnit(u, 104);
    SecondsDigits(Minus(t), UnitDigits(u, 104), UnitDigits(v, 109), AfterUnit(v, 109));
  }

  function ReadDecimalText(t: Text): Got
    requires DecimalPoint(t) > 0
  {
    var u, i := Unsigned(t), DecimalPoint(t);
    if |u| - i - 1 > MAX_SCALE then Wrong(Breaks(R004))
    else
      match ReadDigits(u[..i] + u[i + 1..])
      case None => Wrong(Breaks(R003))
      case Some(n) => Got(Decimal(Signed(Minus(t), n), |u| - i - 1))
  }

  // A bare item of no fixed shape.
  function Unshaped(w: World, t: Text): Got {
    PartsDigits(t);
    var p := MatchDuration(t);
    if p.Parts? && (p.h != [] || p.m != [] || p.s != []) then ReadDuration(p)
    else if IsFloat(t) then if GoodFloat(w.read(t)) then Got(Float(w.read(t))) else Wrong(Breaks(R005))
    else if DecimalPoint(t) > 0 then ReadDecimalText(t)
    else if IsInt(t) then
      match ReadDigits(Unsigned(t))
      case None => Wrong(Breaks(R003))
      case Some(n) => Got(Int(Signed(Minus(t), n)))
    else Wrong(T001)
  }

  // bare: the first shape that matches.
  function Bare(w: World, t: Text): Got {
    if t == NONE then Got(Val.None)
    else if t == FALSE then Got(False)
    else if t == TRUE then Got(True)
    else if IsBytes(t) then Got(Blob(Unhex(t[2..])))
    else if Shaped(t, DATETIME) then ReadDatetime(t)
    else if Shaped(t, DATE) then ReadDate(t)
    else if Shaped(t, TIME) then ReadClock(t)
    else Unshaped(w, t)
  }

  // ---------- reading items ----------

  datatype GotItem = WrongItem(fault: Fault) | GotItem(v: Val, rest: Text)

  predicate IsSpace(c: byte) { c == 32 || c == 9 }

  // The bytes that end a bare item: a space, a tab, a comma, a bracket or a quote.
  predicate IsDelimiter(c: byte) { IsSpace(c) || c == 44 || c == 91 || c == 93 || c == 34 }

  function Skip(t: Text): (r: Text)
    ensures |r| <= |t|
  {
    if t != [] && IsSpace(t[0]) then Skip(t[1..]) else t
  }

  function TokenLength(t: Text): (n: nat)
    ensures n <= |t|
  {
    if t == [] || IsDelimiter(t[0]) then 0 else 1 + TokenLength(t[1..])
  }

  // A code point in UTF-8.
  function Rune(r: nat): Text
    requires r < 0x110000
  {
    if r < 0x80 then [r]
    else if r < 0x800 then [0xC0 + Over(r, 64), 0x80 + Mod(r, 64)]
    else if r < 0x1_0000 then [0xE0 + Over(r, 4096), 0x80 + Mod(Over(r, 64), 64), 0x80 + Mod(r, 64)]
    else [0xF0 + Over(r, 262144), 0x80 + Mod(Over(r, 4096), 64), 0x80 + Mod(Over(r, 64), 64), 0x80 + Mod(r, 64)]
  }

  // Four hex digits; -1 if t does not start with them.
  function Hex4(t: Text): (n: int)
    ensures -1 <= n < 0x1_0000
  {
    if |t| < 4 || !AllHex(t[..4]) then -1
    else
      assert forall k :: 0 <= k < 4 ==> t[..4][k] == t[k];
      ((UnhexDigit(t[0]) * 16 + UnhexDigit(t[1])) * 16 + UnhexDigit(t[2])) * 16 + UnhexDigit(t[3])
  }

  datatype GotText = WrongText(fault: Fault) | GotText(s: Text, rest: Text)

  function Prepend(s: Text, r: GotText): GotText { if r.GotText? then GotText(s + r.s, r.rest) else r }

  // A one-byte escape; 256 for none.
  function Unescape(e: byte): nat {
    if e == 34 || e == 92 || e == 47 then e
    else if e == 98 then 8
    else if e == 102 then 12
    else if e == 110 then 10
    else if e == 114 then 13
    else if e == 116 then 9
    else 256
  }

  // str, after the opening quote.
  function ReadString(t: Text): (r: GotText)
    ensures r.GotText? ==> |r.rest| < |t|
    decreases |t|
  {
    if t == [] then WrongText(T001)
    else if t[0] == 34 then GotText([], t[1..])
    else if t[0] != 92 then Prepend([t[0]], ReadString(t[1..]))
    else if |t| == 1 then WrongText(T001)
    else if Unescape(t[1]) < 256 then Prepend([Unescape(t[1])], ReadString(t[2..]))
    else if t[1] != 117 then WrongText(T001)
    else
      var r := Hex4(t[2..]);
      if r < 0 then WrongText(T001)
      else if 0xD800 <= r <= 0xDFFF then ReadPair(r, t[6..])
      else Prepend(Rune(r), ReadString(t[6..]))
  }

  // The second half of a surrogate pair.
  function ReadPair(high: nat, t: Text): (r: GotText)
    requires 0xD800 <= high <= 0xDFFF
    ensures r.GotText? ==> |r.rest| < |t|
    decreases |t|
  {
    if high >= 0xDC00 || |t| < 2 || t[0] != 92 || t[1] != 117 then WrongText(Breaks(R006))
    else
      var low := Hex4(t[2..]);
      if low < 0xDC00 || low > 0xDFFF then WrongText(Breaks(R006))
      else Prepend(Rune(0x1_0000 + (high - 0xD800) * 0x400 + (low - 0xDC00)), ReadString(t[6..]))
  }

  // An item that is no list.
  function ReadScalarText(w: World, t: Text): (r: GotItem)
    requires t != []
    ensures r.GotItem? ==> |r.rest| < |t|
  {
    if t[0] == 34 then
      match ReadString(t[1..])
      case WrongText(fault) => WrongItem(fault)
      case GotText(s, rest) => GotItem(Str(s), rest)
    else if t[0] == 91 then WrongItem(Breaks(R008))
    else
      var n := TokenLength(t);
      if n == 0 then WrongItem(T001)
      else
        match Bare(w, t[..n])
        case Wrong(fault) => WrongItem(fault)
        case Got(v) => GotItem(v, t[n..])
  }

  // list, from an item on, `before` read already.
  function ReadListItems(w: World, t: Text, before: seq<Val>): (r: GotItem)
    ensures r.GotItem? ==> |r.rest| < |t|
    decreases |t|
  {
    if t == [] then WrongItem(T001)
    else
      match ReadScalarText(w, t)
      case WrongItem(fault) => WrongItem(fault)
      case GotItem(v, rest) => ReadListOn(w, rest, before + [v])
  }

  // list, after an item.
  function ReadListOn(w: World, t: Text, before: seq<Val>): (r: GotItem)
    ensures r.GotItem? ==> |r.rest| < |t|
    decreases |t|
  {
    var rest := Skip(t);
    if rest == [] then WrongItem(T001)
    else if rest[0] == 44 then ReadListItems(w, Skip(rest[1..]), before)
    else if rest[0] == 93 then GotItem(List(before), rest[1..])
    else WrongItem(T001)
  }

  function ReadItemText(w: World, t: Text): (r: GotItem)
    requires t != []
    ensures r.GotItem? ==> |r.rest| < |t|
  {
    if t[0] == 91 then
      var rest := Skip(t[1..]);
      if rest != [] && rest[0] == 93 then GotItem(List([]), rest[1..]) else ReadListItems(w, rest, [])
    else ReadScalarText(w, t)
  }

  datatype Line = WrongLine(fault: Fault) | Line(vs: seq<Val>)

  function ReadLine(w: World, t: Text): Line
    decreases |t|
  {
    if t == [] then Line([])
    else
      match ReadItemText(w, t)
      case WrongItem(fault) => WrongLine(fault)
      case GotItem(v, rest) =>
        if rest != [] && !IsSpace(rest[0]) then WrongLine(T001)
        else
          match ReadLine(w, Skip(rest))
          case WrongLine(fault) => WrongLine(fault)
          case Line(vs) => Line([v] + vs)
  }

  // parseVals: a line that reads as a row, and is spelt as that row is.
  function ParseVals(w: World, line: Text): Line {
    if !Utf8.Valid(line) then WrongLine(Breaks(R006))
    else
      match ReadLine(w, Skip(line))
      case WrongLine(fault) => WrongLine(fault)
      case Line(vs) => if FormatVals(w, vs) == line then Line(vs) else WrongLine(T002)
  }
}
