/** Each bare item of ROW's text reads back as the value it spells (row/text.go): no earlier shape
    claims another kind's canonical spelling. */
module RowTokens {
  import opened Bytes
  import opened Row
  import opened RowText
  import opened RowDigits

  // ASCII with no byte that ends a bare item, and not empty.
  ghost predicate Token(t: Text) { t != [] && forall k :: 0 <= k < |t| ==> !IsDelimiter(t[k]) && t[k] < 128 }

  // t is one token, and reads as v.
  ghost predicate Reads(w: World, v: Val, t: Text) { Token(t) && Bare(w, t) == Got(v) }

  // ---------- int ----------

  lemma {:induction false} DigitsOnly(t: Text)
    requires AllDigits(t) && t != []
    ensures MatchDuration(t) == NoParts && !IsFloat(t) && DecimalPoint(t) == 0 && IsInt(t)
    ensures MatchDuration([45] + t) == NoParts && !IsFloat([45] + t) && DecimalPoint([45] + t) == 0 && IsInt([45] + t)
  {
    assert t + [] == t && t[|t|..] == [];
    RunIs(t, []);
    assert ([45] + t)[1..] == t;
    assert UnitDigits(t, 104) == [] && UnitDigits(t, 109) == [];
  }

  // A digit, then digits, points and the units of a duration.
  ghost predicate Numeric(u: Text) {
    u != [] && IsDigit(u[0]) && forall k :: 0 <= k < |u| ==>
        IsDigit(u[k]) || u[k] == 46 || u[k] == 104
        || u[k] == 109 || u[k] == 115
  }

  lemma {:induction false} NumericToken(n: int, u: Text, t: Text)
    requires Numeric(u) && t == Sign(n) + u
    ensures Loose(t) && Token(t) && Unsigned(t) == u && (Minus(t) <==> n < 0)
  {
    SignedText(n, u);
    assert n < 0 ==> t[0] == 45;
    forall k | 0 <= k < |t|
      ensures !IsDelimiter(t[k]) && t[k] < 128 && (k > 0 ==> t[k] != 45 && t[k] != 58 && t[k] != 120 && t[k] != 88)
    {
      if k >= |Sign(n)| { assert t[k] == u[k - |Sign(n)|]; }
    }
  }

  lemma {:induction false} IntReads(w: World, n: int)
    requires InRange(n)
    ensures Reads(w, Int(n), FormatInt(n))
  {
    var a := Digits(Abs(n));
    var t := Sign(n) + a;
    DigitsAre(Abs(n));
    NumericToken(n, a, t);
    BareLoose(w, t);
    DigitsOnly(a);
    assert n >= 0 ==> t == a;
  }

  // ---------- decimal ----------

  lemma {:induction false} MantissaIs(n: nat, scale: nat)
    ensures AllDigits(Mantissa(n, scale)) && ValueOf(Mantissa(n, scale)) == n
  {
    DigitsAre(n);
    if |Digits(n)| <= scale { ZerosNumber(scale + 1 - |Digits(n)|, Digits(n)); }
  }

  // Digits, a point, and digits or none.
  lemma {:induction false} PointOnly(u: Text, a: Text, b: Text)
    requires AllDigits(a) && a != [] && AllDigits(b) && u == a + [46] + b
    ensures DigitRun(u) == |a| && u[|a|] == 46 && u[|a| + 1..] == b && DigitRun(b) == |b| && u[..|a|] == a
    ensures UnitDigits(u, 104) == [] && UnitDigits(u, 109) == []
  {
    assert u == a + ([46] + b);
    RunIs(a, [46] + b);
    assert b + [] == b;
    RunIs(b, []);
  }

  lemma {:induction false} PointShapes(neg: bool, t: Text, u: Text, a: Text, b: Text)
    requires AllDigits(a) && a != [] && AllDigits(b) && u == a + [46] + b && u == Unsigned(t) && neg == Minus(t)
    ensures MatchDuration(t) == NoParts && !IsFloat(t) && DecimalPoint(t) == |a|
  {
    PointOnly(u, a, b);
    assert b[|b|..] == [];
    if b != [] { assert u[|a| + 1 + |b|..] == []; }
    assert Seconds(neg, [], [], u) == NoParts;
  }

  lemma {:induction false} PointNumeric(u: Text, a: Text, b: Text)
    requires AllDigits(a) && a != [] && AllDigits(b) && u == a + [46] + b
    ensures Numeric(u)
  {
    assert u[0] == a[0];
  }

  lemma {:induction false} ReadPoint(t: Text, u: Text, a: Text, b: Text, n: nat)
    requires u == Unsigned(t) && AllDigits(a) && a != [] && AllDigits(b) && u == a + [46] + b && DecimalPoint(t) == |a|
    requires AllDigits(a + b) && ValueOf(a + b) == n <= MAX_INT && |b| <= MAX_SCALE
    ensures ReadDecimalText(t) == Got(Decimal(Signed(Minus(t), n), |b|))
  {
    PointOnly(u, a, b);
  }

  lemma {:induction false} UnshapedDecimal(w: World, t: Text)
    requires MatchDuration(t) == NoParts && !IsFloat(t) && DecimalPoint(t) > 0
    ensures Unshaped(w, t) == ReadDecimalText(t)
  {
  }

  lemma {:induction false} PointReads(w: World, n: int, t: Text, u: Text, a: Text, b: Text)
    requires AllDigits(a) && a != [] && AllDigits(b) && u == a + [46] + b && t == Sign(n) + u
    requires AllDigits(a + b) && ValueOf(a + b) == Abs(n) <= MAX_INT && |b| <= MAX_SCALE
    ensures Token(t) && Bare(w, t) == Got(Decimal(n, |b|))
  {
    PointNumeric(u, a, b);
    NumericToken(n, u, t);
    PointShapes(Minus(t), t, u, a, b);
    BareLoose(w, t);
    UnshapedDecimal(w, t);
    ReadPoint(t, u, a, b, Abs(n));
  }

  lemma {:induction false} DecimalReads(w: World, n: int, scale: nat)
    requires InRange(n) && scale <= MAX_SCALE
    ensures Reads(w, Decimal(n, scale), FormatDecimal(n, scale))
  {
    var s := Mantissa(Abs(n), scale);
    var a, b := s[..|s| - scale], s[|s| - scale..];
    MantissaIs(Abs(n), scale);
    Reassociate(Sign(n), a, b);
    Halves(s, |s| - scale);
    PointReads(w, n, FormatDecimal(n, scale), a + [46] + b, a, b);
  }

  lemma {:induction false} Reassociate(s: Text, a: Text, b: Text)
    ensures s + a + [46] + b == s + (a + [46] + b)
  {
  }

  lemma {:induction false} Halves(s: Text, k: nat)
    requires k <= |s|
    ensures s[..k] + s[k..] == s
  {
  }

  // ---------- float ----------

  // A float's digits: a token of the float's shape that reads as the float.
  ghost predicate FloatsOk(w: World) {
    forall bits: nat :: GoodFloat(bits) ==> Token(w.show(bits)) && IsFloat(w.show(bits)) && w.read(w.show(bits)) == bits
  }

  lemma {:induction false} FloatStarts(t: Text, u: Text, i: nat)
    requires IsFloat(t) && u == Unsigned(t) && i == DigitRun(u)
    ensures 0 < i < |u| && IsDigit(u[0]) && (u[i] == 46 || u[i] == 101 || u[i] == 69)
    ensures t[0] == 45 || IsDigit(t[0])
  {
    assert u[..i][0] == u[0];
  }

  // Where a run of digits that starts a float ends, there is a point or an exponent.
  lemma {:induction false} FloatStop(t: Text, k: nat)
    requires IsFloat(t) && 0 < k < |t| && (forall j :: 0 <= j < k ==> IsDigit(t[j])) && !IsDigit(t[k])
    ensures t[k] == 46 || t[k] == 101 || t[k] == 69
  {
    assert Unsigned(t) == t;
    FirstStop(t, k);
    FloatStarts(t, t, k);
  }

  lemma {:induction false} FloatNotBytes(t: Text)
    requires IsFloat(t)
    ensures !IsBytes(t)
  {
    if IsBytes(t) { FloatStop(t, 1); }
  }

  lemma {:induction false} FloatNotShaped(t: Text, shape: Text, k: nat)
    requires IsFloat(t) && 0 < k < |shape| && shape[k] != 100 && shape[k] != 46 && shape[k] != 101 && shape[k] != 69
    requires !IsDigit(shape[k]) && forall j :: 0 <= j < k ==> shape[j] == 100
    ensures !Shaped(t, shape)
  {
    if Shaped(t, shape) { FloatStop(t, k); }
  }

  lemma {:induction false} FloatShapes(t: Text)
    requires IsFloat(t)
    ensures t != NONE && t != FALSE && t != TRUE && !IsBytes(t)
    ensures !Shaped(t, DATETIME) && !Shaped(t, DATE) && !Shaped(t, TIME)
  {
    FloatStarts(t, Unsigned(t), DigitRun(Unsigned(t)));
    FloatNotBytes(t);
    Shapes();
    FloatNotShaped(t, DATETIME, 4);
    FloatNotShaped(t, DATE, 4);
    FloatNotShaped(t, TIME, 2);
  }

  // The run of digits ends where something else is.
  lemma {:induction false} FirstStop(t: Text, k: nat)
    requires k < |t| && (forall j :: 0 <= j < k ==> IsDigit(t[j])) && !IsDigit(t[k])
    ensures DigitRun(t) == k
  {
    assert t == t[..k] + t[k..];
    RunIs(t[..k], t[k..]);
  }

  lemma {:induction false} FloatNotDuration(t: Text, u: Text, i: nat)
    requires IsFloat(t) && u == Unsigned(t) && i == DigitRun(u)
    ensures MatchDuration(t) == NoParts
  {
    FloatStarts(t, u, i);
    assert UnitDigits(u, 104) == [] && UnitDigits(u, 109) == [];
    if u[i] == 46 {
      var f := DigitRun(u[i + 1..]);
      assert u[i + 1 + f..] != [115];
    } else {
      assert u[i..][0] == u[i];
    }
    assert Seconds(Minus(t), [], [], u) == NoParts;
  }

  lemma {:induction false} FloatReads(w: World, bits: nat)
    requires FloatsOk(w) && GoodFloat(bits)
    ensures Reads(w, Float(bits), w.show(bits))
  {
    var t := w.show(bits);
    FloatShapes(t);
    FloatNotDuration(t, Unsigned(t), DigitRun(Unsigned(t)));
  }

  // ---------- bytes ----------

  lemma {:induction false} HexIs(b: Text)
    ensures |Hex(b)| == 2 * |b| && AllHex(Hex(b)) && Unhex(Hex(b)) == b
    ensures forall k :: 0 <= k < |Hex(b)| ==> !IsDelimiter(Hex(b)[k]) && Hex(b)[k] < 128
    decreases |b|
  {
    if b != [] {
      HexIs(b[1..]);
      HexByte(b[0]);
      var two := [HexDigit(Over(b[0], 16)), HexDigit(Mod(b[0], 16))];
      assert Hex(b)[2..] == Hex(b[1..]);
      assert b == [b[0]] + b[1..];
    }
  }

  lemma {:induction false} HexByte(c: byte)
    ensures Over(c, 16) < 16 && Mod(c, 16) < 16 && 16 * Over(c, 16) + Mod(c, 16) == c
    ensures UnhexDigit(HexDigit(Over(c, 16))) == Over(c, 16) && UnhexDigit(HexDigit(Mod(c, 16))) == Mod(c, 16)
    ensures !IsDelimiter(HexDigit(Over(c, 16))) && !IsDelimiter(HexDigit(Mod(c, 16)))
  {
  }

  lemma {:induction false} BlobReads(w: World, s: Text)
    ensures Reads(w, Blob(s), [48, 120] + Hex(s))
  {
    var t := [48, 120] + Hex(s);
    HexIs(s);
    assert t[2..] == Hex(s);
    assert |t| % 2 == 0 by { Even(|s|); }
    forall k | 0 <= k < |t|
      ensures !IsDelimiter(t[k]) && t[k] < 128
    {
      if k >= 2 { assert t[k] == Hex(s)[k - 2]; }
    }
  }

  lemma {:induction false} Even(n: nat)
    ensures (2 + 2 * n) % 2 == 0
  {
  }
}
