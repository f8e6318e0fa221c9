/** What ROW's parser reads is a row that can be written (row/text.go): every number in its range,
    every string UTF-8. */
module RowTextValid {
  import opened Bytes
  import opened Row
  import opened RowText
  import opened RowDigits
  import opened RowTextLaws
  import Civil
  import Utf8
  import opened Utf8Laws

  // ---------- well-formed remainders ----------

  // Text cut before a byte of ASCII.
  lemma {:induction false} AtAscii(t: Text, k: nat)
    requires Utf8.Valid(t) && k <= |t| && (k < |t| ==> t[k] < 128)
    ensures Utf8.Valid(t[k..])
    decreases k
  {
    if k > 0 {
      var n := Utf8.RuneSize(t);
      RuneBytes(t);
      if k >= n {
        AtAscii(t[n..], k - n);
        assert t[n..][k - n..] == t[k..];
      }
    }
  }

  // And after one.
  lemma {:induction false} PastAscii(t: Text, k: nat)
    requires Utf8.Valid(t) && k < |t| && t[k] < 128
    ensures Utf8.Valid(t[k + 1..])
  {
    AtAscii(t, k);
    assert t[k..][0] == t[k] && t[k..][1..] == t[k + 1..];
    assert Utf8.RuneSize(t[k..]) == 1;
  }

  lemma {:induction false} SkipValid(t: Text)
    requires Utf8.Valid(t)
    ensures Utf8.Valid(Skip(t))
    decreases |t|
  {
    if t != [] && IsSpace(t[0]) {
      PastAscii(t, 0);
      SkipValid(t[1..]);
    }
  }

  // ---------- strings ----------

  lemma {:induction false} RuneIs(r: nat)
    requires r < 0x110000 && !(0xD800 <= r <= 0xDFFF)
    ensures Utf8.Valid(Rune(r))
  {
    if r < 0x80 {
      AsciiValid(Rune(r));
    } else if r < 0x800 {
      TwoBytes(r);
    } else if r < 0x1_0000 {
      ThreeBytes(r);
    } else {
      FourBytes(r);
    }
  }

  lemma {:induction false} WholeRune(s: Text)
    requires s != [] && Utf8.RuneSize(s) == |s|
    ensures Utf8.Valid(s)
  {
    assert s[|s|..] == [];
  }

  lemma {:induction false} TwoBytes(r: nat)
    requires 0x80 <= r < 0x800
    ensures Utf8.Valid(Rune(r))
  {
    assert 2 <= Over(r, 64) < 32 && Mod(r, 64) < 64;
    WholeRune(Rune(r));
  }

  lemma {:induction false} ThreeBytes(r: nat)
    requires 0x800 <= r < 0x1_0000 && !(0xD800 <= r <= 0xDFFF)
    ensures Utf8.Valid(Rune(r))
  {
    var a, b, c := Over(r, 4096), Mod(Over(r, 64), 64), Mod(r, 64);
    assert a < 16 && b < 64 && c < 64;
    assert 4096 * a + 64 * b + c == r by { ThreeParts(r); }
    WholeRune(Rune(r));
  }

  lemma {:induction false} ThreeParts(r: nat)
    ensures 4096 * Over(r, 4096) + 64 * Mod(Over(r, 64), 64) + Mod(r, 64) == r
  {
  }

  lemma {:induction false} FourBytes(r: nat)
    requires 0x1_0000 <= r < 0x110000
    ensures Utf8.Valid(Rune(r))
  {
    var a, b, c, d := Over(r, 262144), Mod(Over(r, 4096), 64), Mod(Over(r, 64), 64), Mod(r, 64);
    assert a <= 4 && b < 64 && c < 64 && d < 64;
    assert 262144 * a + 4096 * b <= r < 262144 * a + 4096 * b + 4096 by { FourParts(r); }
    WholeRune(Rune(r));
  }

  lemma {:induction false} FourParts(r: nat)
    ensures 262144 * Over(r, 262144) + 4096 * Mod(Over(r, 4096), 64) + 64 * Mod(Over(r, 64), 64) + Mod(r, 64) == r
  {
    ThreeParts(r);
    var q := r / 4096;
    var p := q / 64;
    assert q == 64 * p + Mod(q, 64);
    assert 262144 * p <= r < 262144 * p + 262144;
    assert r / 262144 == p;
  }

  // Bytes of no ASCII are read as they stand.
  lemma {:induction false} HighReads(t: Text, n: nat)
    requires n <= |t| && forall k :: 0 <= k < n ==> t[k] >= 128
    ensures ReadString(t) == if ReadString(t[n..]).GotText?
            then GotText(t[..n] + ReadString(t[n..]).s, ReadString(t[n..]).rest) else ReadString(t[n..])
    decreases n
  {
    if n == 0 {
      assert t[..0] == [] && t[0..] == t;
      assert ReadString(t).GotText? ==> [] + ReadString(t).s == ReadString(t).s;
    } else {
      HighReads(t[1..], n - 1);
      DropOneMore(t, n - 1);
      TakeCons(t, n - 1);
      if ReadString(t[n..]).GotText? { Associate([t[0]], t[1..][..n - 1], ReadString(t[n..]).s); }
    }
  }

  ghost predicate TextValid(r: GotText) { r.GotText? ==> Utf8.Valid(r.s) && Utf8.Valid(r.rest) }

  lemma {:induction false} PrependValid(s: Text, r: GotText)
    requires Utf8.Valid(s) && TextValid(r)
    ensures TextValid(Prepend(s, r))
  {
    if r.GotText? { ValidAppend(s, r.s); }
  }

  lemma {:induction false} HexIsAscii(t: Text)
    requires Hex4(t) >= 0
    ensures |t| >= 4 && t[3] < 128
  {
    assert t[..4][3] == t[3] && UnhexDigit(t[..4][3]) >= 0;
  }

  lemma {:induction false} StringValid(t: Text)
    requires Utf8.Valid(t)
    ensures TextValid(ReadString(t))
    decreases |t|
  {
    if t != [] {
      var n := Utf8.RuneSize(t);
      RuneBytes(t);
      if n > 1 {
        HighReads(t, n);
        StringValid(t[n..]);
        RuneAlone(t);
        PrependValid(t[..n], ReadString(t[n..]));
      } else if t[0] == 34 {
        AsciiValid([]);
      } else if t[0] != 92 {
        StringValid(t[1..]);
        AsciiValid([t[0]]);
        PrependValid([t[0]], ReadString(t[1..]));
      } else if |t| > 1 {
        EscapeValid(t);
      }
    }
  }

  lemma {:induction false} EscapeValid(t: Text)
    requires Utf8.Valid(t) && |t| > 1 && t[0] == 92
    ensures TextValid(ReadString(t))
    decreases |t|, 0
  {
    var u := Unescape(t[1]);
    if u < 256 {
      PastAscii(t, 1);
      StringValid(t[2..]);
      AsciiValid([u]);
      PrependValid([u], ReadString(t[2..]));
    } else if t[1] == 117 {
      var r := Hex4(t[2..]);
      if r >= 0 {
        HexIsAscii(t[2..]);
        assert t[5] == t[2..][3];
        PastAscii(t, 5);
        if 0xD800 <= r <= 0xDFFF {
          PairValid(r, t[6..]);
        } else {
          RuneIs(r);
          StringValid(t[6..]);
          PrependValid(Rune(r), ReadString(t[6..]));
        }
      }
    }
  }

  lemma {:induction false} PairValid(high: nat, t: Text)
    requires Utf8.Valid(t) && 0xD800 <= high <= 0xDFFF
    ensures TextValid(ReadPair(high, t))
    decreases |t|, 1
  {
    if high < 0xDC00 && |t| >= 2 && t[0] == 92 && t[1] == 117 {
      var low := Hex4(t[2..]);
      if 0xDC00 <= low <= 0xDFFF {
        var r := 0x1_0000 + (high - 0xD800) * 0x400 + (low - 0xDC00);
        HexIsAscii(t[2..]);
        assert t[5] == t[2..][3];
        PastAscii(t, 5);
        RuneIs(r);
        StringValid(t[6..]);
        PrependValid(Rune(r), ReadString(t[6..]));
      }
    }
  }

  // ---------- bare items ----------

  lemma {:induction false} DateBounds(date: Civil.Date)
    requires Civil.ValidCivil(date)
    ensures MIN_DAY <= Civil.DaysFromCivil(date) <= MAX_DAY
  {
    Civil.DayBoundsOf(date);
  }

  lemma {:induction false} UnhexLength(t: Text)
    requires AllHex(t)
    ensures |Unhex(t)| <= |t|
    decreases |t|
  {
    if |t| >= 2 { UnhexLength(t[2..]); }
  }

  lemma {:induction false} ClockValid(t: Text)
    requires Shaped(t, TIME)
    ensures ReadClock(t).Got? ==> ReadClock(t).v.Time? && 0 <= ReadClock(t).v.n <= MAX_TIME
  {
    DigitsBelow(t[9..12]);
  }

  lemma {:induction false} DigitsBelow(t: Text)
    requires AllDigits(t)
    ensures ValueOf(t) < Ten(|t|)
    decreases |t|
  {
    if t != [] { DigitsBelow(t[..|t| - 1]); }
  }

  lemma {:induction false} DateValid(t: Text)
    requires Shaped(t, DATE)
    ensures ReadDate(t).Got? ==> ReadDate(t).v.Date? && MIN_DAY <= ReadDate(t).v.n <= MAX_DAY
  {
    var date := Civil.Date(ValueOf(t[..4]), ValueOf(t[5..7]), ValueOf(t[8..10]));
    if Civil.ValidCivil(date) { DateBounds(date); }
  }

  lemma {:induction false} DurationValid(p: Parts)
    requires p.Parts? && PartsOk(p)
    ensures ReadDuration(p).Got? ==> Valid(ReadDuration(p).v, true)
  {
  }

  lemma {:induction false} DecimalValid(t: Text)
    requires DecimalPoint(t) > 0
    ensures ReadDecimalText(t).Got? ==> Valid(ReadDecimalText(t).v, true)
  {
  }

  lemma {:induction false} UnshapedValid(w: World, t: Text)
    ensures Unshaped(w, t).Got? ==> Valid(Unshaped(w, t).v, true)
  {
    PartsDigits(t);
    var p := MatchDuration(t);
    if p.Parts? { DurationValid(p); }
    if DecimalPoint(t) > 0 { DecimalValid(t); }
    UnshapedCases(w, t, p);
  }

  lemma {:induction false} UnshapedCases(w: World, t: Text, p: Parts)
    requires p == MatchDuration(t)
             && (p.Parts? && PartsOk(p) && ReadDuration(p).Got? ==> Valid(ReadDuration(p).v, true)) && PartsOk(p)
    requires DecimalPoint(t) > 0 && ReadDecimalText(t).Got? ==> Valid(ReadDecimalText(t).v, true)
    ensures Unshaped(w, t).Got? ==> Valid(Unshaped(w, t).v, true)
  {
    var v := Unshaped(w, t);
    if p.Parts? && (p.h != [] || p.m != [] || p.s != []) {
      assert v == ReadDuration(p);
    } else if IsFloat(t) {
    } else if DecimalPoint(t) > 0 {
      assert v == ReadDecimalText(t);
    }
  }

  lemma {:induction false} BareValid(w: World, t: Text)
    requires |t| <= MAX_INT
    ensures Bare(w, t).Got? ==> Valid(Bare(w, t).v, true)
  {
    if IsBytes(t) { UnhexLength(t[2..]); }
    if Shaped(t, DATE) { DateValid(t); }
    if Shaped(t, TIME) { ClockValid(t); }
    if Shaped(t, DATETIME) {
      DateValid(t[..10]);
      ClockValid(t[11..23]);
    }
    UnshapedValid(w, t);
  }

  // ---------- items and rows ----------

  lemma {:induction false} TokenEnds(t: Text)
    ensures TokenLength(t) < |t| ==> t[TokenLength(t)] < 128
  {
    if t != [] && !IsDelimiter(t[0]) { TokenEnds(t[1..]); }
  }

  ghost predicate ItemOk(r: GotItem, inList: bool) { r.GotItem? ==> Valid(r.v, inList) && Utf8.Valid(r.rest) }

  lemma {:induction false} ScalarOk(w: World, t: Text)
    requires Utf8.Valid(t) && t != [] && |t| <= MAX_INT
    ensures ItemOk(ReadScalarText(w, t), true) && ItemOk(ReadScalarText(w, t), false)
  {
    if t[0] == 34 {
      PastAscii(t, 0);
      StringValid(t[1..]);
      StringLength(t[1..]);
    } else if t[0] != 91 {
      var n := TokenLength(t);
      TokenEnds(t);
      AtAscii(t, n);
      BareValid(w, t[..n]);
      var r := Bare(w, t[..n]);
      if r.Got? { FlatValid(r.v); }
    }
  }

  lemma {:induction false} FlatValid(v: Val)
    requires Valid(v, true)
    ensures Valid(v, false)
  {
  }

  // A string is no longer than its spelling.
  lemma {:induction false} StringLength(t: Text)
    ensures ReadString(t).GotText? ==> |ReadString(t).s| <= |t|
    decreases |t|
  {
    if |t| > 0 && t[0] != 34 {
      StringLength(t[1..]);
      if |t| > 1 {
        StringLength(t[2..]);
        if |t| >= 6 {
          StringLength(t[6..]);
          if |t[6..]| >= 6 { StringLength(t[6..][6..]); }
        }
      }
    }
  }

  lemma {:induction false} ListOk(w: World, t: Text, before: seq<Val>)
    requires Utf8.Valid(t) && |t| + |before| <= MAX_INT && forall it :: it in before ==> Valid(it, true)
    ensures ItemOk(ReadListItems(w, t, before), false)
    decreases |t|
  {
    if t != [] {
      ScalarOk(w, t);
      var r := ReadScalarText(w, t);
      if r.GotItem? { ListOnOk(w, r.rest, before + [r.v]); }
    }
  }

  lemma {:induction false} ListOnOk(w: World, t: Text, before: seq<Val>)
    requires Utf8.Valid(t) && |t| + |before| <= MAX_INT && forall it :: it in before ==> Valid(it, true)
    ensures ItemOk(ReadListOn(w, t, before), false)
    decreases |t|
  {
    SkipValid(t);
    var rest := Skip(t);
    if rest != [] && rest[0] == 44 {
      PastAscii(rest, 0);
      SkipValid(rest[1..]);
      ListOk(w, Skip(rest[1..]), before);
    } else if rest != [] && rest[0] == 93 {
      PastAscii(rest, 0);
    }
  }

  lemma {:induction false} ItemIsOk(w: World, t: Text)
    requires Utf8.Valid(t) && t != [] && |t| <= MAX_INT
    ensures ItemOk(ReadItemText(w, t), false)
  {
    ScalarOk(w, t);
    if t[0] == 91 {
      PastAscii(t, 0);
      SkipValid(t[1..]);
      var rest := Skip(t[1..]);
      if rest != [] && rest[0] == 93 { PastAscii(rest, 0); } else { ListOk(w, rest, []); }
    }
  }

  lemma {:induction false} LineOk(w: World, t: Text)
    requires Utf8.Valid(t) && |t| <= MAX_INT
    ensures ReadLine(w, t).Line? ==> ValidRow(ReadLine(w, t).vs)
    decreases |t|
  {
    if t != [] {
      ItemIsOk(w, t);
      var r := ReadItemText(w, t);
      if r.GotItem? {
        SkipValid(r.rest);
        LineOk(w, Skip(r.rest));
      }
    }
  }

  // A line that parses is the one spelling of a row that can be written.
  lemma {:induction false} ParseExact(w: World, line: Text)
    requires |line| <= MAX_INT && ParseVals(w, line).Line?
    ensures ValidRow(ParseVals(w, line).vs) && FormatVals(w, ParseVals(w, line).vs) == line
  {
    SkipValid(line);
    LineOk(w, Skip(line));
  }
}
