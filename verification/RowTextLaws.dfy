/** ROW's text round trip (row/text.go): what Format writes, Parse reads as the row it was written
    for, and Parse takes no other text. */
module RowTextLaws {
  import opened Bytes
  import opened Row
  import opened RowText
  import opened RowTokens
  import opened RowTimes
  import Utf8
  import opened Utf8Laws

  // ---------- strings ----------

  lemma {:induction false} HexEscape(c: byte, more: Text, t: Text)
    requires c < 32 && t == [92, 117, 48, 48, HexDigit(Over(c, 16)), HexDigit(Mod(c, 16))] + more
    ensures ReadString(t) == Prepend([c], ReadString(more))
  {
    HexByte(c);
    assert t[0] == 92 && t[1] == 117 && t[2] == 48 && t[3] == 48 && t[6..] == more;
    var h := t[2..];
    assert h[0] == 48 && h[1] == 48 && h[2] == HexDigit(Over(c, 16)) && h[3] == HexDigit(Mod(c, 16));
    assert AllHex(h[..4]);
    assert Hex4(h) == c;
  }

  lemma {:induction false} EscapeReads(c: byte, more: Text, t: Text)
    requires t == Escape(c) + more
    ensures ReadString(t) == Prepend([c], ReadString(more))
  {
    if c < 32 && |Escape(c)| == 6 {
      HexEscape(c, more, t);
    } else if |Escape(c)| == 2 {
      assert t[0] == 92 && t[1] == Escape(c)[1] && t[2..] == more;
    } else {
      assert t[0] == c && t[1..] == more;
    }
  }

  lemma {:induction false} EscapedReads(s: Text, rest: Text)
    ensures ReadString(Escaped(s) + ([34] + rest)) == GotText(s, rest)
    decreases |s|
  {
    var after := [34] + rest;
    if s == [] {
      assert Escaped(s) + after == after && after[1..] == rest;
    } else {
      EscapedReads(s[1..], rest);
      Associate(Escape(s[0]), Escaped(s[1..]), after);
      EscapeReads(s[0], Escaped(s[1..]) + after, Escaped(s) + after);
      assert [s[0]] + s[1..] == s;
    }
  }

  lemma {:induction false} QuoteReads(w: World, s: Text, rest: Text)
    ensures ReadScalarText(w, Quote(s) + rest) == GotItem(Str(s), rest)
  {
    var t := Quote(s) + rest;
    assert t[1..] == Escaped(s) + ([34] + rest);
    EscapedReads(s, rest);
  }

  // ---------- items ----------

  ghost predicate Ends(rest: Text) { rest == [] || IsDelimiter(rest[0]) }

  lemma {:induction false} TokenIs(t: Text, rest: Text)
    requires (forall k :: 0 <= k < |t| ==> !IsDelimiter(t[k])) && Ends(rest)
    ensures TokenLength(t + rest) == |t|
    decreases |t|
  {
    if t == [] {
      assert t + rest == rest;
    } else {
      AppendCons(t, rest);
      TokenIs(t[1..], rest);
    }
  }

  lemma {:induction false} TokenReads(w: World, v: Val, t: Text, rest: Text)
    requires Reads(w, v, t) && Ends(rest)
    ensures ReadScalarText(w, t + rest) == GotItem(v, rest)
  {
    TokenIs(t, rest);
    assert (t + rest)[0] == t[0] && (t + rest)[..|t|] == t && (t + rest)[|t|..] == rest;
  }

  lemma {:induction false} WordReads(w: World, v: Val)
    requires FloatsOk(w) && Valid(v, true) && !v.Str?
    ensures Reads(w, v, Bareword(w, v))
  {
    WordsRead(w);
    match v {
      case None =>
      case False =>
      case True =>
      case Int(n) => IntReads(w, n);
      case Decimal(n, scale) => DecimalReads(w, n, scale);
      case Float(bits) => FloatReads(w, bits);
      case Date(n) => DateReads(w, n);
      case Datetime(n) => DatetimeReads(w, n);
      case Time(n) => TimeReads(w, n);
      case Duration(n) => DurationReads(w, n);
      case Blob(s) => BlobReads(w, s);
    }
  }

  lemma {:induction false} ScalarReads(w: World, v: Val, rest: Text)
    requires FloatsOk(w) && Valid(v, true) && Ends(rest)
    ensures ReadScalarText(w, ScalarText(w, v) + rest) == GotItem(v, rest)
  {
    if v.Str? {
      QuoteReads(w, v.s, rest);
    } else {
      WordReads(w, v);
      TokenReads(w, v, Bareword(w, v), rest);
    }
  }

  // Starts with no space, comma or bracket.
  ghost predicate Clean(t: Text) { t != [] && !IsSpace(t[0]) && t[0] != 44 && t[0] != 91 && t[0] != 93 }

  lemma {:induction false} ScalarIsClean(w: World, v: Val)
    requires FloatsOk(w) && Valid(v, true)
    ensures Clean(ScalarText(w, v))
  {
    if v.Str? {
      assert Quote(v.s)[0] == 34;
    } else {
      WordReads(w, v);
      assert !IsDelimiter(Bareword(w, v)[0]);
    }
  }

  lemma {:induction false} ScalarsAreClean(w: World, items: seq<Val>)
    requires FloatsOk(w) && items != [] && forall it :: it in items ==> Valid(it, true)
    ensures Clean(ScalarsText(w, items))
  {
    ScalarIsClean(w, items[0]);
    assert ScalarsText(w, items)[0] == ScalarText(w, items[0])[0];
  }

  // ---------- lists ----------

  lemma {:induction false} LastItem(w: World, v: Val, rest: Text, before: seq<Val>, t: Text)
    requires FloatsOk(w) && Valid(v, true) && t == ScalarText(w, v) + ([93] + rest)
    ensures ReadListItems(w, t, before) == GotItem(List(before + [v]), rest)
  {
    var more := [93] + rest;
    ScalarReads(w, v, more);
    ScalarIsClean(w, v);
    assert t != [];
    assert ReadListOn(w, more, before + [v]) == GotItem(List(before + [v]), rest) by {
      assert Skip(more) == more && more[1..] == rest;
    }
  }

  lemma {:induction false} CommaReads(w: World, more: Text, before: seq<Val>)
    requires Clean(more)
    ensures ReadListOn(w, [44, 32] + more, before) == ReadListItems(w, more, before)
  {
    var rest := [44, 32] + more;
    assert Skip(rest) == rest && rest[1..] == [32] + more && ([32] + more)[1..] == more;
    assert Skip([32] + more) == Skip(more) == more;
  }

  lemma {:induction false} NextItem(w: World, v: Val, more: Text, before: seq<Val>, t: Text)
    requires FloatsOk(w) && Valid(v, true) && t == ScalarText(w, v) + ([44, 32] + more) && Clean(more)
    ensures ReadListItems(w, t, before) == ReadListItems(w, more, before + [v])
  {
    var rest := [44, 32] + more;
    ScalarReads(w, v, rest);
    ScalarIsClean(w, v);
    assert t != [];
    CommaReads(w, more, before + [v]);
  }

  lemma {:induction false} ListReads(w: World, items: seq<Val>, rest: Text, before: seq<Val>)
    requires FloatsOk(w) && items != [] && forall it :: it in items ==> Valid(it, true)
    ensures ReadListItems(w, ScalarsText(w, items) + ([93] + rest), before) == GotItem(List(before + items), rest)
    decreases |items|
  {
    var t := ScalarsText(w, items) + ([93] + rest);
    assert items == [items[0]] + items[1..] && Valid(items[0], true);
    if |items| == 1 {
      LastItem(w, items[0], rest, before, t);
      assert items == [items[0]];
    } else {
      var tail := items[1..];
      var more := ScalarsText(w, tail) + ([93] + rest);
      ScalarsAreClean(w, tail);
      assert more[0] == ScalarsText(w, tail)[0];
      Regroup(ScalarText(w, items[0]), ScalarsText(w, tail), [93] + rest);
      NextItem(w, items[0], more, before, t);
      ListReads(w, tail, rest, before + [items[0]]);
      assert before + [items[0]] + tail == before + items;
    }
  }

  lemma {:induction false} Regroup(a: Text, b: Text, c: Text)
    ensures a + [44, 32] + b + c == a + ([44, 32] + (b + c))
  {
  }

  // ---------- rows ----------

  lemma {:induction false} ListBody(w: World, items: seq<Val>, rest: Text, inner: Text)
    requires FloatsOk(w) && items != [] && (forall it :: it in items ==> Valid(it, true))
             && inner == ScalarsText(w, items) + ([93] + rest)
    ensures Clean(inner) && ReadListItems(w, inner, []) == GotItem(List(items), rest)
  {
    ScalarsAreClean(w, items);
    assert inner[0] == ScalarsText(w, items)[0];
    ListReads(w, items, rest, []);
    assert [] + items == items;
  }

  lemma {:induction false} ListOpens(w: World, t: Text, inner: Text, r: GotItem)
    requires t != [] && t[0] == 91 && t[1..] == inner && Clean(inner) && ReadListItems(w, inner, []) == r
    ensures ReadItemText(w, t) == r
  {
    assert Skip(inner) == inner;
  }

  lemma {:induction false} Bracketed(a: Text, rest: Text, t: Text)
    requires t == [91] + a + [93] + rest
    ensures t[0] == 91 && t[1..] == a + ([93] + rest)
  {
  }

  lemma {:induction false} NoItems(w: World, rest: Text, t: Text)
    requires t == [91] + [] + [93] + rest
    ensures ReadItemText(w, t) == GotItem(List([]), rest)
  {
    assert t[1..][0] == 93 && t[1..][1..] == rest;
  }

  lemma {:induction false} ListItemReads(w: World, items: seq<Val>, rest: Text, t: Text, r: GotItem)
    requires FloatsOk(w) && (forall it :: it in items ==> Valid(it, true))
             && t == [91] + ScalarsText(w, items) + [93] + rest
    requires r == ReadItemText(w, t)
    ensures r == GotItem(List(items), rest)
  {
    if items == [] {
      NoItems(w, rest, t);
    } else {
      var inner := ScalarsText(w, items) + ([93] + rest);
      Bracketed(ScalarsText(w, items), rest, t);
      ListBody(w, items, rest, inner);
      ListOpens(w, t, inner, GotItem(List(items), rest));
    }
  }

  lemma {:induction false} ItemReads(w: World, v: Val, rest: Text)
    requires FloatsOk(w) && Valid(v, false) && Ends(rest)
    ensures ReadItemText(w, ItemText(w, v) + rest) == GotItem(v, rest)
  {
    if v.List? {
      ListItemReads(w, v.items, rest, ItemText(w, v) + rest, ReadItemText(w, ItemText(w, v) + rest));
    } else {
      ScalarReads(w, v, rest);
      ScalarIsClean(w, v);
    }
  }

  lemma {:induction false} ItemStarts(w: World, v: Val)
    requires FloatsOk(w) && Valid(v, false)
    ensures ItemText(w, v) != [] && !IsSpace(ItemText(w, v)[0])
  {
    if !v.List? { ScalarIsClean(w, v); }
  }

  lemma {:induction false} RowStarts(w: World, vs: seq<Val>)
    requires FloatsOk(w) && ValidRow(vs)
    ensures Skip(FormatVals(w, vs)) == FormatVals(w, vs)
  {
    if vs != [] {
      ItemStarts(w, vs[0]);
      assert FormatVals(w, vs)[0] == ItemText(w, vs[0])[0];
    }
  }

  lemma {:induction false} ItemThenLine(w: World, t: Text, v: Val, rest: Text, more: Text, vs: seq<Val>)
    requires t != [] && ReadItemText(w, t) == GotItem(v, rest) && ReadLine(w, more) == Line(vs)
    requires rest == more == [] || (rest == [32] + more && Skip(more) == more)
    ensures ReadLine(w, t) == Line([v] + vs)
  {
    if rest != [] { assert rest[1..] == more; }
  }

  lemma {:induction false} FirstReads(w: World, vs: seq<Val>, t: Text, more: Text)
    requires FloatsOk(w) && ValidRow(vs) && |vs| > 1 && t == FormatVals(w, vs) && more == FormatVals(w, vs[1..])
    ensures t != [] && ReadItemText(w, t) == GotItem(vs[0], [32] + more)
  {
    ItemReads(w, vs[0], [32] + more);
    ItemStarts(w, vs[0]);
    Associate(ItemText(w, vs[0]), [32], more);
  }

  lemma {:induction false} OnlyReads(w: World, v: Val, t: Text)
    requires FloatsOk(w) && Valid(v, false) && t == ItemText(w, v)
    ensures t != [] && ReadItemText(w, t) == GotItem(v, [])
  {
    assert t + [] == t;
    ItemReads(w, v, []);
    ItemStarts(w, v);
  }

  lemma {:induction false} RowReads(w: World, vs: seq<Val>, t: Text)
    requires FloatsOk(w) && ValidRow(vs) && t == FormatVals(w, vs)
    ensures ReadLine(w, t) == Line(vs)
    decreases |vs|
  {
    if |vs| == 1 {
      OnlyReads(w, vs[0], t);
      ItemThenLine(w, t, vs[0], [], [], []);
      assert vs == [vs[0]] + [];
    } else if vs != [] {
      var more := FormatVals(w, vs[1..]);
      FirstReads(w, vs, t, more);
      RowStarts(w, vs[1..]);
      RowReads(w, vs[1..], more);
      ItemThenLine(w, t, vs[0], [32] + more, more, vs[1..]);
      assert vs == [vs[0]] + vs[1..];
    }
  }

  // ---------- well-formed text ----------

  lemma {:induction false} EscapeAscii(c: byte)
    requires c < 128
    ensures Ascii(Escape(c))
  {
    HexByte(c);
  }

  // Bytes of no ASCII stand as they are.
  lemma {:induction false} EscapedHigh(s: Text, n: nat)
    requires n <= |s| && forall k :: 0 <= k < n ==> s[k] >= 128
    ensures Escaped(s) == s[..n] + Escaped(s[n..])
    decreases n
  {
    if n > 0 {
      var tail, rest := s[1..], s[n..];
      EscapedHigh(tail, n - 1);
      DropOneMore(s, n - 1);
      assert Escape(s[0]) == [s[0]];
      Associate([s[0]], tail[..n - 1], Escaped(rest));
      TakeCons(s, n - 1);
    }
  }

  lemma {:induction false} DropOneMore(s: Text, k: nat)
    requires k < |s|
    ensures s[1..][k..] == s[k + 1..]
  {
  }

  lemma {:induction false} EscapedValid(s: Text)
    requires Utf8.Valid(s)
    ensures Utf8.Valid(Escaped(s))
    decreases |s|
  {
    if s != [] {
      var n := Utf8.RuneSize(s);
      RuneBytes(s);
      EscapedValid(s[n..]);
      if n == 1 {
        EscapeAscii(s[0]);
        AsciiValid(Escape(s[0]));
        ValidAppend(Escape(s[0]), Escaped(s[1..]));
      } else {
        EscapedHigh(s, n);
        RuneAlone(s);
        ValidAppend(s[..n], Escaped(s[n..]));
      }
    }
  }

  lemma {:induction false} ScalarValid(w: World, v: Val)
    requires FloatsOk(w) && Valid(v, true)
    ensures Utf8.Valid(ScalarText(w, v))
  {
    if v.Str? {
      EscapedValid(v.s);
      AsciiValid([34]);
      ValidAppend([34], Escaped(v.s));
      ValidAppend([34] + Escaped(v.s), [34]);
    } else {
      WordReads(w, v);
      AsciiValid(Bareword(w, v));
    }
  }

  lemma {:induction false} ScalarsValid(w: World, items: seq<Val>)
    requires FloatsOk(w) && forall it :: it in items ==> Valid(it, true)
    ensures Utf8.Valid(ScalarsText(w, items))
    decreases |items|
  {
    if items != [] {
      ScalarValid(w, items[0]);
      if |items| > 1 {
        ScalarsValid(w, items[1..]);
        AsciiValid([44, 32]);
        ValidAppend(ScalarText(w, items[0]), [44, 32]);
        ValidAppend(ScalarText(w, items[0]) + [44, 32], ScalarsText(w, items[1..]));
      }
    }
  }

  lemma {:induction false} ItemValid(w: World, v: Val)
    requires FloatsOk(w) && Valid(v, false)
    ensures Utf8.Valid(ItemText(w, v))
  {
    if v.List? {
      ScalarsValid(w, v.items);
      AsciiValid([91]);
      AsciiValid([93]);
      ValidAppend([91], ScalarsText(w, v.items));
      ValidAppend([91] + ScalarsText(w, v.items), [93]);
    } else {
      ScalarValid(w, v);
    }
  }

  lemma {:induction false} RowValid(w: World, vs: seq<Val>)
    requires FloatsOk(w) && ValidRow(vs)
    ensures Utf8.Valid(FormatVals(w, vs))
    decreases |vs|
  {
    if vs != [] {
      ItemValid(w, vs[0]);
      if |vs| > 1 {
        RowValid(w, vs[1..]);
        AsciiValid([32]);
        ValidAppend(ItemText(w, vs[0]), [32]);
        ValidAppend(ItemText(w, vs[0]) + [32], FormatVals(w, vs[1..]));
      }
    }
  }

  // ---------- the laws ----------

  // A row's text parses as the row.
  lemma {:induction false} RoundTrip(w: World, vs: seq<Val>)
    requires FloatsOk(w) && ValidRow(vs)
    ensures ParseVals(w, FormatVals(w, vs)) == Line(vs)
  {
    RowValid(w, vs);
    RowStarts(w, vs);
    RowReads(w, vs, FormatVals(w, vs));
  }

  // No two rows are spelt alike.
  lemma {:induction false} Injective(w: World, a: seq<Val>, b: seq<Val>)
    requires FloatsOk(w) && ValidRow(a) && ValidRow(b) && FormatVals(w, a) == FormatVals(w, b)
    ensures a == b
  {
    RoundTrip(w, a);
    RoundTrip(w, b);
  }
}
