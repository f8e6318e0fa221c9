/** The parser of ROW's text as it runs (row/text.go): a position moved over the line, each method
    proved to read what the notation's functions say. Byte offsets in errors are left out. */
module RowParser {
  import opened Bytes
  import opened Row
  import opened RowText
  import Utf8

  // digitRun
  method FindRun(t: Text, start: nat) returns (i: nat)
    requires start <= |t|
    ensures i == start + DigitRun(t[start..])
  {
    i := start;
    while i < |t| && IsDigit(t[i])
      invariant start <= i <= |t| && i + DigitRun(t[i..]) == start + DigitRun(t[start..])
    {
      assert t[i..][1..] == t[i + 1..];
      i := i + 1;
    }
  }

  lemma {:induction false} SliceAt(t: Text, i: nat, j: nat, k: nat)
    requires i <= j <= k <= |t|
    ensures t[i..][..j - i] == t[i..j] && t[i..][j - i..] == t[j..] && t[j..][..k - j] == t[j..k]
            && (j < |t| ==> t[i..][j - i] == t[j])
  {
  }

  // The unit s ends a duration.
  method AtEnd(t: Text, i: nat) returns (end: bool)
    requires i <= |t|
    ensures end == (t[i..] == [115])
  {
    assert i < |t| ==> t[i..][0] == t[i];
    end := i + 1 == |t| && t[i] == 115;
    assert end ==> t[i..] == [115];
  }

  // What a fraction makes of the seconds before it: u is the fraction's digits and what follows.
  function Fraction(neg: bool, h: Text, m: Text, s: Text, u: Text): Parts {
    var n := DigitRun(u);
    if n < 1 || n > 3 || u[n..] != [115] then NoParts else Parts(neg, h, m, s, u[..n])
  }

  lemma {:induction false} SecondsBy(neg: bool, h: Text, m: Text, u: Text, j: nat, goal: Parts)
    requires j == DigitRun(u) && goal == Seconds(neg, h, m, u)
    ensures goal ==
            if j == 0 then if u == [] then Parts(neg, h, m, [], []) else NoParts
            else if j < |u| && u[j] == 46 then Fraction(neg, h, m, u[..j], u[j + 1..])
            else if u[j..] != [115] then NoParts
            else Parts(neg, h, m, u[..j], [])
  {
    if j < |u| { DropMore(u, j + 1, DigitRun(u[j + 1..])); }
  }

  // The fraction of a duration's seconds, from i on.
  method ScanFraction(t: Text, i: nat, neg: bool, h: Text, m: Text, s: Text) returns (p: Parts)
    requires i <= |t|
    ensures p == Fraction(neg, h, m, s, t[i..])
  {
    var e := FindRun(t, i);
    SliceAt(t, i, e, e);
    var end := AtEnd(t, e);
    if e - i < 1 || e - i > 3 || !end { return NoParts; }
    return Parts(neg, h, m, s, t[i..e]);
  }

  lemma {:induction false} PointAt(t: Text, i: nat, j: nat, u: Text)
    requires i <= j <= |t| && u == t[i..]
    ensures u[..j - i] == t[i..j] && u[j - i..] == t[j..]
    ensures j < |t| ==> u[j - i] == t[j] && u[j - i + 1..] == t[j + 1..]
  {
  }

  // The seconds of matchDuration, from i on.
  method ScanSeconds(t: Text, i: nat, neg: bool, h: Text, m: Text, ghost goal: Parts) returns (p: Parts)
    requires i <= |t| && goal == Seconds(neg, h, m, t[i..])
    ensures p == goal
  {
    ghost var u := t[i..];
    var j := FindRun(t, i);
    SecondsBy(neg, h, m, u, j - i, goal);
    PointAt(t, i, j, u);
    if j == i { return if i == |t| then Parts(neg, h, m, [], []) else NoParts; }
    if j < |t| && t[j] == 46 {
      p := ScanFraction(t, j + 1, neg, h, m, t[i..j]);
      return;
    }
    var end := AtEnd(t, j);
    return if end then Parts(neg, h, m, t[i..j], []) else NoParts;
  }

  // One unit of matchDuration, if it is there.
  method ScanUnit(t: Text, i: nat, unit: byte) returns (ds: Text, next: nat)
    requires i <= |t|
    ensures i <= next <= |t| && ds == UnitDigits(t[i..], unit) && t[next..] == AfterUnit(t[i..], unit)
  {
    var j := FindRun(t, i);
    Part(t, i, j, unit);
    if i < j < |t| && t[j] == unit { return t[i..j], j + 1; }
    return [], i;
  }

  // matchDuration
  method ScanDuration(t: Text) returns (p: Parts)
    ensures p == MatchDuration(t)
  {
    var i := if Minus(t) then 1 else 0;
    assert t[i..] == Unsigned(t);
    var h, m;
    h, i := ScanUnit(t, i, 104);
    m, i := ScanUnit(t, i, 109);
    p := ScanSeconds(t, i, Minus(t), h, m, MatchDuration(t));
  }

  lemma {:induction false} Part(t: Text, i: nat, j: nat, unit: byte)
    requires i <= |t| && j == i + DigitRun(t[i..])
    ensures i < j < |t| && t[j] == unit ==> UnitDigits(t[i..], unit) == t[i..j] && AfterUnit(t[i..], unit) == t[j + 1..]
    ensures !(i < j < |t| && t[j] == unit) ==> UnitDigits(t[i..], unit) == [] && AfterUnit(t[i..], unit) == t[i..]
  {
    if j < |t| { assert t[i..][j - i] == t[j] && t[i..][..j - i] == t[i..j] && t[i..][j - i + 1..] == t[j + 1..]; }
  }

  // matchShape
  method ScanShape(t: Text, shape: Text) returns (yes: bool)
    ensures yes == Shaped(t, shape)
  {
    if |t| != |shape| { return false; }
    var i := 0;
    while i < |shape|
      invariant i <= |shape| && forall k :: 0 <= k < i ==> if shape[k] == 100 then IsDigit(t[k]) else t[k] == shape[k]
    {
      if if shape[i] == 100 then !IsDigit(t[i]) else t[i] != shape[i] { return false; }
      i := i + 1;
    }
    return true;
  }

  // matchBytes
  method ScanBytes(t: Text) returns (yes: bool)
    ensures yes == IsBytes(t)
  {
    if |t| < 2 || t[0] != 48 || (t[1] != 120 && t[1] != 88) || |t| % 2 != 0 { return false; }
    var i := 2;
    while i < |t|
      invariant 2 <= i <= |t| && forall k :: 2 <= k < i ==> UnhexDigit(t[k]) >= 0
    {
      if UnhexDigit(t[i]) < 0 {
        assert t[2..][i - 2] == t[i];
        return false;
      }
      i := i + 1;
    }
    return true;
  }

  // matchInt
  method ScanInt(t: Text) returns (yes: bool)
    ensures yes == IsInt(t)
  {
    var i := if Minus(t) then 1 else 0;
    assert t[i..] == Unsigned(t);
    var j := FindRun(t, i);
    return j != i && j == |t|;
  }

  // matchDecimal: where the point stands after the sign, 0 if the text is no decimal.
  method ScanDecimal(t: Text) returns (point: nat)
    ensures point == DecimalPoint(t)
  {
    var i := if Minus(t) then 1 else 0;
    assert t[i..] == Unsigned(t);
    var j := FindRun(t, i);
    PointAt(t, i, j, t[i..]);
    if j == i || j == |t| || t[j] != 46 { return 0; }
    var end := FindRun(t, j + 1);
    return if end == |t| then j - i else 0;
  }

  // The exponent of isFloat, from i on.
  method ScanExponent(t: Text, i: nat) returns (yes: bool)
    requires i <= |t|
    ensures yes == IsExponent(t[i..])
  {
    if i == |t| || (t[i] != 101 && t[i] != 69) { return false; }
    var j := i + 1;
    if j < |t| && (t[j] == 43 || t[j] == 45) { j := j + 1; }
    assert t[i..][j - i..] == t[j..];
    var k := FindRun(t, j);
    return k > j && k == |t|;
  }

  // isFloat by what stands after its sign: i digits, and f after a point.
  ghost predicate FloatParts(float: bool, u: Text, i: nat, f: nat) {
    && i <= |u|
    && (i == 0 || (i < |u| && u[i] == 46 && f == 0) ==> !float)
    && (i > 0 && f > 0 ==> i + 1 + f <= |u| && float == IsExponent(u[i + 1 + f..]))
    && (i > 0 && !(i < |u| && u[i] == 46) ==> float == IsExponent(u[i..]))
  }

  lemma {:induction false} FloatBy(t: Text, u: Text, i: nat, f: nat)
    requires u == Unsigned(t) && i == DigitRun(u) && f == if i < |u| && u[i] == 46 then DigitRun(u[i + 1..]) else 0
    ensures FloatParts(IsFloat(t), u, i, f)
  {
  }

  lemma {:induction false} FloatAt(float: bool, t: Text, i: nat, j: nat, k: nat)
    requires i <= j <= k <= |t| && (if j < |t| && t[j] == 46 then k > j else k == j)
    requires FloatParts(float, t[i..], j - i, if k > j then k - j - 1 else 0)
    ensures j == i || k == j + 1 ==> !float
    ensures j > i && k != j + 1 ==> float == IsExponent(t[k..])
  {
    PointAt(t, i, j, t[i..]);
    PointAt(t, i, k, t[i..]);
  }

  // isFloat, past the sign: where the exponent should stand, or nowhere.
  method ScanMantissa(t: Text, i: nat) returns (ok: bool, k: nat)
    requires i <= |t| && t[i..] == Unsigned(t)
    ensures k <= |t| && (!ok ==> !IsFloat(t)) && (ok ==> IsFloat(t) == IsExponent(t[k..]))
  {
    var j := FindRun(t, i);
    k := j;
    if j < |t| && t[j] == 46 { k := FindRun(t, j + 1); }
    PointAt(t, i, j, t[i..]);
    FloatBy(t, t[i..], j - i, if k > j then k - j - 1 else 0);
    FloatAt(IsFloat(t), t, i, j, k);
    ok := j > i && k != j + 1;
  }

  // isFloat
  method ScanFloat(t: Text) returns (yes: bool)
    ensures yes == IsFloat(t)
  {
    var i := if Minus(t) then 1 else 0;
    assert t[i..] == Unsigned(t);
    var ok, k := ScanMantissa(t, i);
    if !ok { return false; }
    yes := ScanExponent(t, k);
  }

  // bare, past the fixed shapes.
  method ReadUnshaped(w: World, t: Text) returns (r: Got)
    ensures r == Unshaped(w, t)
  {
    PartsDigits(t);
    var p := ScanDuration(t);
    if p.Parts? && (p.h != [] || p.m != [] || p.s != []) { return ReadDuration(p); }
    var float := ScanFloat(t);
    if float {
      var bits := w.read(t);
      return if GoodFloat(bits) then Got(Float(bits)) else Wrong(Breaks(R005));
    }
    var point := ScanDecimal(t);
    if point > 0 { return ReadDecimalText(t); }
    var whole := ScanInt(t);
    if !whole { return Wrong(T001); }
    var n := ReadDigits(Unsigned(t));
    if n.None? { return Wrong(Breaks(R003)); }
    return Got(Int(Signed(Minus(t), n.value)));
  }

  // bare: the first shape that matches.
  method ReadBare(w: World, t: Text) returns (r: Got)
    ensures r == Bare(w, t)
  {
    if t == NONE { return Got(Val.None); }
    if t == FALSE { return Got(False); }
    if t == TRUE { return Got(True); }
    var matches := ScanBytes(t);
    if matches { return Got(Blob(Unhex(t[2..]))); }
    matches := ScanShape(t, DATETIME);
    if matches { return ReadDatetime(t); }
    matches := ScanShape(t, DATE);
    if matches { return ReadDate(t); }
    matches := ScanShape(t, TIME);
    if matches { return ReadClock(t); }
    r := ReadUnshaped(w, t);
  }

  datatype Outcome = Failed(fault: Fault) | Done(v: Val)

  // What a method read against what the notation says is there.
  ghost predicate Matches(o: Outcome, left: Text, r: GotItem) {
    match r
    case WrongItem(fault) => o == Failed(fault)
    case GotItem(v, rest) => o == Done(v) && left == rest
  }

  lemma {:induction false} ScalarInList(w: World, t: Text, o: Outcome, left: Text, before: seq<Val>)
    requires t != [] && Matches(o, left, ReadScalarText(w, t))
    ensures ReadListItems(w, t, before) ==
            match o
            case Failed(fault) => WrongItem(fault)
            case Done(v) => ReadListOn(w, left, before + [v])
  {
  }

  // What the mark after an item, at the head of t, makes of a list.
  function ReadMark(w: World, t: Text, items: seq<Val>): GotItem {
    if t == [] then WrongItem(T001)
    else if t[0] == 44 then ReadListItems(w, Skip(t[1..]), items)
    else if t[0] == 93 then GotItem(List(items), t[1..])
    else WrongItem(T001)
  }

  lemma {:induction false} ItemOnLine(w: World, t: Text, o: Outcome, left: Text)
    requires t != [] && Matches(o, left, ReadItemText(w, t))
    ensures ReadLine(w, t) ==
            match o
            case Failed(fault) => WrongLine(fault)
            case Done(v) => if left != [] && !IsSpace(left[0]) then WrongLine(T001)
                else Before([v], ReadLine(w, Skip(left)))
  {
  }

  function Before(vs: seq<Val>, r: Line): Line { if r.Line? then Line(vs + r.vs) else r }

  lemma {:induction false} BeforeTwice(vs: seq<Val>, v: Val, r: Line)
    ensures Before(vs, Before([v], r)) == Before(vs + [v], r)
  {
    if r.Line? { assert vs + ([v] + r.vs) == vs + [v] + r.vs; }
  }

  ghost predicate MatchesText(o: Outcome, left: Text, r: GotText) {
    match r
    case WrongText(fault) => o == Failed(fault)
    case GotText(text, rest) => o == Done(Val.Str(text)) && left == rest
  }

  lemma {:induction false} QuotedIs(w: World, t: Text, o: Outcome, left: Text, r: GotText)
    requires t != [] && t[0] == 34 && r == ReadString(t[1..]) && MatchesText(o, left, r)
    ensures Matches(o, left, ReadScalarText(w, t))
  {
  }

  // What ReadString makes of a string's first byte, of an escape, and of the halves of a pair.
  lemma {:induction false} PlainIs(t: Text, r: GotText)
    requires t != [] && r == ReadString(t)
    ensures t[0] == 34 ==> r == GotText([], t[1..])
    ensures t[0] != 34 && t[0] != 92 ==> r == Prepend([t[0]], ReadString(t[1..]))
  {
  }

  lemma {:induction false} EscapeIs(t: Text, r: GotText)
    requires t != [] && t[0] == 92 && r == ReadString(t)
    ensures |t| == 1 || (Unescape(t[1]) >= 256 && t[1] != 117) ==> r == WrongText(T001)
    ensures |t| > 1 && Unescape(t[1]) < 256 ==> r == Prepend([Unescape(t[1])], ReadString(t[2..]))
  {
  }

  lemma {:induction false} UnicodeIs(t: Text, r: GotText)
    requires |t| > 1 && t[0] == 92 && t[1] == 117 && r == ReadString(t)
    ensures var n := Hex4(t[2..]);
            r == if n < 0 then WrongText(T001)
                 else if 0xD800 <= n <= 0xDFFF then ReadPair(n, t[6..])
                 else Prepend(Rune(n), ReadString(t[6..]))
  {
  }

  lemma {:induction false} PairIs(high: nat, t: Text, r: GotText)
    requires 0xD800 <= high <= 0xDFFF && r == ReadPair(high, t)
    ensures high >= 0xDC00 || |t| < 2 || t[0] != 92 || t[1] != 117 ==> r == WrongText(Breaks(R006))
    ensures high < 0xDC00 && |t| >= 2 && t[0] == 92 && t[1] == 117 ==>
              var low := Hex4(t[2..]);
              r == if low < 0xDC00 || low > 0xDFFF then WrongText(Breaks(R006))
                   else Prepend(Rune(0x1_0000 + (high - 0xD800) * 0x400 + (low - 0xDC00)), ReadString(t[6..]))
  {
  }

  lemma {:induction false} PrependNothing(r: GotText)
    ensures Prepend([], r) == r
  {
    if r.GotText? { assert [] + r.s == r.s; }
  }

  lemma {:induction false} PrependTwice(a: Text, b: Text, r: GotText)
    ensures Prepend(a, Prepend(b, r)) == Prepend(a + b, r)
  {
    if r.GotText? { Associate(a, b, r.s); }
  }

  lemma {:induction false} DropMore(s: Text, i: nat, k: nat)
    requires i + k <= |s|
    ensures s[i..][k..] == s[i + k..]
  {
  }

  function ItemOf(g: Got): Outcome {
    match g
    case Wrong(fault) => Failed(fault)
    case Got(v) => Done(v)
  }

  lemma {:induction false} NoWord(w: World, t: Text)
    requires t != [] && t[0] != 34 && t[0] != 91 && TokenLength(t) == 0
    ensures ReadScalarText(w, t) == WrongItem(T001)
  {
  }

  lemma {:induction false} WordIs(w: World, t: Text, token: Text, g: Got, o: Outcome)
    requires t != [] && t[0] != 34 && t[0] != 91 && TokenLength(t) > 0 && token == t[..TokenLength(t)]
    requires g == Bare(w, token) && o == ItemOf(g)
    ensures Matches(o, t[TokenLength(t)..], ReadScalarText(w, t))
  {
  }

  class Parser {
    const w: World
    const s: Text
    var pos: nat

    ghost predicate Valid()
      reads this
    {
      pos <= |s|
    }

    ghost function Left(): Text
      requires Valid()
      reads this
    {
      s[pos..]
    }

    constructor (w: World, s: Text)
      ensures Valid() && this.w == w && this.s == s && pos == 0
    {
      this.w, this.s, pos := w, s, 0;
    }

    method Space()
      requires Valid()
      modifies this
      ensures Valid() && pos >= old(pos) && Left() == Skip(old(Left()))
    {
      while pos < |s| && IsSpace(s[pos])
        invariant Valid() && pos >= old(pos) && Skip(Left()) == Skip(old(Left()))
      {
        DropMore(s, pos, 1);
        pos := pos + 1;
      }
    }

    method Hex() returns (n: int)
      requires Valid()
      modifies this
      ensures Valid() && n == Hex4(old(Left())) && pos == old(pos) + if n >= 0 then 4 else 0
    {
      assert pos + 4 <= |s| ==> Left()[..4] == s[pos..pos + 4];
      n := Hex4(s[pos..]);
      if n >= 0 { pos := pos + 4; }
    }

    // The second half of a surrogate pair.
    method ReadLow(high: int, ghost goal: GotText) returns (ok: bool, text: Text, fault: Fault)
      requires Valid() && 0xD800 <= high <= 0xDFFF && goal == ReadPair(high, Left())
      modifies this
      ensures Valid() && pos >= old(pos)
      ensures goal == if ok then Prepend(text, ReadString(Left())) else WrongText(fault)
    {
      ok, text, fault := false, [], Breaks(R006);
      ghost var t := Left();
      PairIs(high, t, goal);
      if pos + 2 <= |s| { PairAt(t, pos); }
      if high >= 0xDC00 || pos + 2 > |s| || s[pos] != 92 || s[pos + 1] != 117 { return; }
      pos := pos + 2;
      var low := Hex();
      if low < 0xDC00 || low > 0xDFFF { return; }
      return true, Rune(0x1_0000 + (high - 0xD800) * 0x400 + (low - 0xDC00)), fault;
    }

    // What stands at a position, and two and six bytes on.
    lemma {:induction false} PairAt(t: Text, at: nat)
      requires at + 2 <= |s| && t == s[at..]
      ensures t[0] == s[at] && t[1] == s[at + 1] && t[2..] == s[at + 2..] && (at + 6 <= |s| ==> t[6..] == s[at + 6..])
    {
    }

    // The four digits of an escape and what they need after them.
    method ReadUnicode(ghost t: Text, ghost goal: GotText) returns (ok: bool, text: Text, fault: Fault)
      requires Valid() && |t| >= 2 && t[0] == 92 && t[1] == 117 && Left() == t[2..] && goal == ReadString(t)
      modifies this
      ensures Valid() && pos >= old(pos)
      ensures goal == if ok then Prepend(text, ReadString(Left())) else WrongText(fault)
    {
      ok, text, fault := false, [], T001;
      UnicodeIs(t, goal);
      DropMore(s, pos, 4 * if pos + 4 <= |s| then 1 else 0);
      DropMore(t, 2, 4 * if |t| >= 6 then 1 else 0);
      var r := Hex();
      if r < 0 { return; }
      if r < 0xD800 || r > 0xDFFF { return true, Rune(r), T001; }
      ok, text, fault := ReadLow(r, goal);
    }

    // One escape of a string, pos at its backslash.
    method ReadEscape(ghost goal: GotText) returns (ok: bool, text: Text, fault: Fault)
      requires Valid() && pos < |s| && s[pos] == 92 && goal == ReadString(Left())
      modifies this
      ensures Valid() && pos >= old(pos) && (ok ==> pos > old(pos))
      ensures goal == if ok then Prepend(text, ReadString(Left())) else WrongText(fault)
    {
      ok, text, fault := false, [], T001;
      ghost var t := Left();
      EscapeIs(t, goal);
      if pos + 1 >= |s| { return; }
      DropMore(s, pos, 2);
      var e := s[pos + 1];
      assert t[1] == e;
      pos := pos + 2;
      if Unescape(e) < 256 { return true, [Unescape(e)], T001; }
      if e != 117 { return; }
      ok, text, fault := ReadUnicode(t, goal);
    }

    // One turn of str: the end of the string, or a piece of it after `text`.
    method Piece(text: Text, ghost all: GotText) returns (o: Outcome, more: bool, next: Text)
      requires Valid() && Prepend(text, ReadString(Left())) == all
      modifies this
      ensures Valid() && pos >= old(pos) && (more ==> pos > old(pos))
      ensures if more then Prepend(next, ReadString(Left())) == all else MatchesText(o, Left(), all)
    {
      o, more, next := Failed(T001), false, text;
      ghost var t, goal := Left(), ReadString(Left());
      if pos >= |s| { return; }
      var c := s[pos];
      assert t[0] == c;
      DropMore(s, pos, 1);
      PlainIs(t, goal);
      if c == 34 {
        pos := pos + 1;
        o := Done(Val.Str(text));
        assert text + [] == text;
      } else if c != 92 {
        pos := pos + 1;
        more, next := true, text + [c];
        PrependTwice(text, [c], ReadString(Left()));
      } else {
        var ok, piece, fault := ReadEscape(goal);
        if !ok { return Failed(fault), false, text; }
        more, next := true, text + piece;
        PrependTwice(text, piece, ReadString(Left()));
      }
    }

    // str
    method Str() returns (o: Outcome)
      requires Valid() && pos < |s| && s[pos] == 34
      modifies this
      ensures Valid() && pos > old(pos) && Matches(o, Left(), ReadScalarText(w, old(Left())))
    {
      ghost var t := Left();
      DropMore(s, pos, 1);
      pos := pos + 1;
      ghost var all := ReadString(Left());
      var text: Text, more := [], true;
      o := Failed(T001);
      PrependNothing(all);
      while more
        invariant Valid() && pos > old(pos)
        invariant if more then Prepend(text, ReadString(Left())) == all else MatchesText(o, Left(), all)
        decreases more, |s| - pos
      {
        o, more, text := Piece(text, all);
      }
      QuotedIs(w, t, o, Left(), all);
    }

    // Up to the next delimiter.
    method Token()
      requires Valid()
      modifies this
      ensures Valid() && pos == old(pos) + TokenLength(old(Left()))
      ensures old(Left())[..TokenLength(old(Left()))] == s[old(pos)..pos]
              && old(Left())[TokenLength(old(Left()))..] == Left()
    {
      ghost var start, n := pos, TokenLength(Left());
      while pos < |s| && !IsDelimiter(s[pos])
        invariant start <= pos <= |s| && pos - start + TokenLength(s[pos..]) == n
      {
        DropMore(s, pos, 1);
        pos := pos + 1;
      }
      DropMore(s, start, n);
    }

    // A bare item.
    method Word() returns (o: Outcome)
      requires Valid() && pos < |s| && s[pos] != 34 && s[pos] != 91
      modifies this
      ensures Valid() && pos >= old(pos) && (o.Done? ==> pos > old(pos))
              && Matches(o, Left(), ReadScalarText(w, old(Left())))
    {
      var start := pos;
      ghost var t := Left();
      assert t[0] == s[pos];
      Token();
      if pos == start {
        NoWord(w, t);
        return Failed(T001);
      }
      var g := ReadBare(w, s[start..pos]);
      o := ItemOf(g);
      WordIs(w, t, s[start..pos], g, o);
    }

    // item, in a list.
    method Scalar() returns (o: Outcome)
      requires Valid() && pos < |s|
      modifies this
      ensures Valid() && pos >= old(pos) && (o.Done? ==> pos > old(pos))
              && Matches(o, Left(), ReadScalarText(w, old(Left())))
    {
      assert Left()[0] == s[pos];
      if s[pos] == 34 {
        o := Str();
      } else if s[pos] == 91 {
        o := Failed(Breaks(R008));
      } else {
        o := Word();
      }
    }

    // What follows an item of a list.
    method ListOn(items: seq<Val>, ghost goal: GotItem) returns (o: Outcome, more: bool)
      requires Valid() && goal == ReadListOn(w, Left(), items)
      modifies this
      ensures Valid() && pos >= old(pos)
      ensures if more then goal == ReadListItems(w, Left(), items) else Matches(o, Left(), goal)
    {
      Space();
      o, more := ListMark(items, goal);
    }

    method ListMark(items: seq<Val>, ghost goal: GotItem) returns (o: Outcome, more: bool)
      requires Valid() && goal == ReadMark(w, Left(), items)
      modifies this
      ensures Valid() && pos >= old(pos)
      ensures if more then goal == ReadListItems(w, Left(), items) else Matches(o, Left(), goal)
    {
      o, more := Failed(T001), false;
      if pos >= |s| { return; }
      assert Left()[0] == s[pos];
      DropMore(s, pos, 1);
      if s[pos] == 44 {
        pos := pos + 1;
        Space();
        more := true;
      } else if s[pos] == 93 {
        pos := pos + 1;
        o := Done(Val.List(items));
      }
    }

    // One turn of list: an item and what follows it.
    method ListItem(items: seq<Val>) returns (o: Outcome, more: bool, next: seq<Val>)
      requires Valid()
      modifies this
      ensures Valid() && pos >= old(pos) && (more ==> pos > old(pos))
      ensures if more then ReadListItems(w, old(Left()), items) == ReadListItems(w, Left(), next)
              else Matches(o, Left(), ReadListItems(w, old(Left()), items))
    {
      more, next := false, items;
      if pos >= |s| { return Failed(T001), false, items; }
      ghost var t := Left();
      o := Scalar();
      ScalarInList(w, t, o, Left(), items);
      if o.Failed? { return; }
      next := items + [o.v];
      o, more := ListOn(next, ReadListOn(w, Left(), next));
    }

    // list
    method List() returns (o: Outcome)
      requires Valid() && pos < |s| && s[pos] == 91
      modifies this
      ensures Valid() && pos > old(pos) && Matches(o, Left(), ReadItemText(w, old(Left())))
    {
      assert Left()[0] == 91;
      DropMore(s, pos, 1);
      pos := pos + 1;
      Space();
      assert Left() != [] ==> Left()[0] == s[pos];
      if pos < |s| && s[pos] == 93 {
        DropMore(s, pos, 1);
        pos := pos + 1;
        return Done(Val.List([]));
      }
      var items: seq<Val>, more := [], true;
      o := Failed(T001);
      ghost var all := ReadListItems(w, Left(), []);
      while more
        invariant Valid() && pos > old(pos)
        invariant if more then ReadListItems(w, Left(), items) == all else Matches(o, Left(), all)
        decreases more, |s| - pos
      {
        o, more, items := ListItem(items);
      }
    }

    // item
    method Item() returns (o: Outcome)
      requires Valid() && pos < |s|
      modifies this
      ensures Valid() && pos >= old(pos) && (o.Done? ==> pos > old(pos))
              && Matches(o, Left(), ReadItemText(w, old(Left())))
    {
      assert Left()[0] == s[pos];
      if s[pos] == 91 { o := List(); } else { o := Scalar(); }
    }
  }

  // parseVals
  method Parse(w: World, line: Text) returns (r: Line)
    ensures r == ParseVals(w, line)
  {
    if !Utf8.Valid(line) { return WrongLine(Breaks(R006)); }
    var p := new Parser(w, line);
    assert p.Left() == line;
    p.Space();
    var vs: seq<Val> := [];
    ghost var all := ReadLine(w, p.Left());
    assert Before([], all) == all by { if all.Line? { assert [] + all.vs == all.vs; } }
    while p.pos < |line|
      invariant fresh(p) && p.Valid() && p.s == line && p.w == w && Before(vs, ReadLine(w, p.Left())) == all
      decreases |line| - p.pos
    {
      ghost var t := p.Left();
      var o := p.Item();
      ItemOnLine(w, t, o, p.Left());
      if o.Failed? { return WrongLine(o.fault); }
      if p.pos < |line| && !IsSpace(line[p.pos]) {
        assert p.Left()[0] == line[p.pos];
        return WrongLine(T001);
      }
      assert p.Left() != [] ==> p.Left()[0] == line[p.pos];
      p.Space();
      BeforeTwice(vs, o.v, ReadLine(w, p.Left()));
      vs := vs + [o.v];
    }
    assert p.Left() == [] && vs + [] == vs;
    if FormatVals(w, vs) != line { return WrongLine(T002); }
    return Line(vs);
  }
}
