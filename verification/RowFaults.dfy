/** What the decoder refuses and as what (row/ROW.t, section 4): a row cut short, and each kind of
    value outside its bounds, whatever follows it. */
module RowFaults {
  import opened Bytes
  import opened Row
  import opened RowLaws
  import Utf8
  import Lz4s
  import Lz4sLaws

  // ---------- cut short: R001 ----------

  lemma {:induction false} VarintCut(u: nat, i: nat, k: nat)
    requires i < 8 && u < Pow128(8 - i) && k < |Uvarint(u)|
    ensures ReadVarint(Uvarint(u)[..k], i) == Bad(R001)
    decreases u
  {
    if k > 0 {
      assert Pow128(1) == 128;
      assert Uvarint(u)[..k][1..] == Uvarint(Shift7(u))[..k - 1];
      VarintCut(Shift7(u), i + 1, k - 1);
    }
  }

  lemma {:induction false} LengthVarintCut(u: nat, k: nat)
    requires u <= 2 * MAX_INT && k < |Uvarint(u)|
    ensures ReadVarint(Uvarint(u)[..k], 0) == Bad(R001)
  {
    EightBytes();
    VarintCut(u, 0, k);
  }

  lemma {:induction false} EightBytes()
    ensures Pow128(8) == 0x100_0000_0000_0000
  {
    assert Pow128(4) == 0x1000_0000;
  }

  lemma {:induction false} SignedCut(n: int, k: nat)
    requires InRange(n) && k < |SignedBytes(n)|
    ensures ReadSigned(SignedBytes(n)[..k]) == Bad(R001)
  {
    ZigzagInverse(n);
    LengthVarintCut(Zigzag(n), k);
  }

  // A front of a + b that ends in b.
  lemma {:induction false} FrontOf(a: seq<byte>, b: seq<byte>, k: nat)
    requires k <= |a| + |b|
    ensures k < |a| ==> (a + b)[..k] == a[..k]
    ensures k >= |a| ==> (a + b)[..k] == a + b[..k - |a|]
  {
  }

  lemma {:induction false} PrefixedCut(s: seq<byte>, k: nat)
    requires |s| <= MAX_INT && k < |Prefixed(s)|
    ensures ReadLength(Prefixed(s)[..k]) == Bad(R001)
  {
    var size := Uvarint(|s|);
    FrontOf(size, s, k);
    if k < |size| { LengthVarintCut(|s|, k); } else { LengthVarintInverse(|s|, s[..k - |size|]); }
  }

  lemma {:induction false} CompressedCut(s: seq<byte>, stream: seq<byte>, k: nat)
    requires |s| <= MAX_INT && |stream| <= MAX_INT && k < |Uvarint(|s|) + Prefixed(stream)|
    ensures ReadCompressed((Uvarint(|s|) + Prefixed(stream))[..k]) == BadItem(R001)
  {
    var size := Uvarint(|s|);
    FrontOf(size, Prefixed(stream), k);
    if k < |size| {
      LengthVarintCut(|s|, k);
    } else {
      LengthVarintInverse(|s|, Prefixed(stream)[..k - |size|]);
      PrefixedCut(stream, k - |size|);
    }
  }

  lemma {:induction false} StringCut(s: seq<byte>, k: nat)
    requires Valid(Str(s), true) && k < |StringPayload(s)|
    ensures ReadPayload(StringTag(s), StringPayload(s)[..k]) == BadItem(R001)
  {
    var stream := Lz4s.CompressSpec(s);
    StringForm(s, stream);
    if |s| > MAX_SHORT {
      if Smaller(|stream|, |s|) { CompressedCut(s, stream, k); } else { PrefixedCut(s, k); }
    }
  }

  lemma {:induction false} DecimalCut(n: int, scale: nat, k: nat)
    requires Valid(Decimal(n, scale), true) && k < 1 + |SignedBytes(n)|
    ensures ReadDecimal(([scale] + SignedBytes(n))[..k]) == BadItem(R001)
  {
    if k > 0 {
      assert ([scale] + SignedBytes(n))[..k][1..] == SignedBytes(n)[..k - 1];
      SignedCut(n, k - 1);
    }
  }

  lemma {:induction false} NumberCut(tag: nat, n: int, k: nat)
    requires tag in {246, 249, 250, 252} && InRange(n) && k < |SignedBytes(n)|
    ensures ReadPayload(tag, SignedBytes(n)[..k]) == BadItem(R001)
  {
    SignedCut(n, k);
  }

  lemma {:induction false} DatesInRange(n: int)
    ensures Valid(Date(n), true) || Valid(Datetime(n), true) ==> InRange(n)
  {
  }

  lemma {:induction false} PayloadCut(v: Val, k: nat)
    requires Valid(v, true) && k < |Payload(v)|
    ensures ReadPayload(Tag(v), Payload(v)[..k]) == BadItem(R001)
  {
    match v
    case Str(s) => StringCut(s, k);
    case Decimal(n, scale) => DecimalCut(n, scale, k);
    case Float(bits) =>
    case Time(n) => LengthVarintCut(n, k);
    case Blob(s) => PrefixedCut(s, k);
    case Int(n) => NumberCut(246, n, k);
    case Date(n) => DatesInRange(n); NumberCut(249, n, k);
    case Datetime(n) => DatesInRange(n); NumberCut(250, n, k);
    case Duration(n) => NumberCut(252, n, k);
    case _ =>
  }

  lemma {:induction false} ScalarCut(v: Val, k: nat)
    requires Valid(v, true) && !v.List? && 0 < k < |ScalarBytes(v)|
    ensures Tag(v) != 255 && ReadAny(ScalarBytes(v)[..k], true) == BadItem(R001)
    ensures ReadAny(ScalarBytes(v)[..k], false) == BadItem(R001)
  {
    var b := ScalarBytes(v)[..k];
    PayloadCut(v, k - 1);
    assert b[0] == Tag(v) && b[1..] == Payload(v)[..k - 1];
  }

  // A scalar before a fault.
  lemma {:induction false} ScalarThen(v: Val, after: seq<byte>, n: nat, code: Code)
    requires Valid(v, true) && n > 0 && ReadScalars(after, n - 1) == BadItems(code)
    ensures ReadScalars(ScalarBytes(v) + after, n) == BadItems(code)
  {
    ScalarInverse(v, after);
    ScalarFault(ScalarBytes(v) + after, v, after, n, code);
  }

  lemma {:induction false} ScalarFault(b: seq<byte>, v: Val, after: seq<byte>, n: nat, code: Code)
    requires b != [] && n > 0 && ReadAny(b, true) == ReadItem(v, after) && ReadScalars(after, n - 1) == BadItems(code)
    ensures ReadScalars(b, n) == BadItems(code)
  {
  }

  lemma {:induction false} ScalarsCut(items: seq<Val>, k: nat)
    requires Scalars(items) && k < |ScalarsBytes(items)|
    ensures ReadScalars(ScalarsBytes(items)[..k], |items|) == BadItems(R001)
    decreases |items|
  {
    var v, vs := items[0], items[1..];
    assert Valid(v, true);
    var one := ScalarBytes(v);
    FrontOf(one, ScalarsBytes(vs), k);
    if 0 < k < |one| {
      ScalarCut(v, k);
    } else if k >= |one| {
      ScalarsCut(vs, k - |one|);
      ScalarThen(v, ScalarsBytes(vs)[..k - |one|], |items|, R001);
    }
  }

  // A count and part of what it counts.
  lemma {:induction false} CountedCut(n: nat, part: seq<byte>)
    requires n <= MAX_INT && ReadScalars(part, n) == BadItems(R001)
    ensures ReadList(Uvarint(n) + part) == BadItem(R001)
  {
    LengthVarintInverse(n, part);
  }

  lemma {:induction false} ListCut(items: seq<Val>, k: nat)
    requires Valid(List(items), false) && k < |Uvarint(|items|) + ScalarsBytes(items)|
    ensures ReadList((Uvarint(|items|) + ScalarsBytes(items))[..k]) == BadItem(R001)
  {
    var size, b := Uvarint(|items|), ScalarsBytes(items);
    FrontOf(size, b, k);
    if k < |size| {
      LengthVarintCut(|items|, k);
    } else {
      ScalarsCut(items, k - |size|);
      CountedCut(|items|, b[..k - |size|]);
    }
  }

  // Part of an item is refused as cut short.
  lemma {:induction false} ItemCut(v: Val, k: nat)
    requires Valid(v, false) && 0 < k < |ItemBytes(v)|
    ensures ReadAny(ItemBytes(v)[..k], false) == BadItem(R001)
  {
    if v.List? {
      var b := Uvarint(|v.items|) + ScalarsBytes(v.items);
      assert ItemBytes(v)[..k] == [255] + b[..k - 1];
      ListCut(v.items, k - 1);
    } else {
      ScalarCut(v, k);
    }
  }

  // Part of a row is its first items, or is refused as cut short.
  lemma {:induction false} RowCut(vs: seq<Val>, k: nat) returns (j: nat)
    requires ValidRow(vs) && k < |Encode(vs)|
    ensures j < |vs| && ValidRow(vs[..j]) && Encode(vs[..j]) <= Encode(vs)[..k]
    ensures Decode(Encode(vs)[..k]) == if Encode(vs)[..k] == Encode(vs[..j]) then Row(vs[..j]) else Broken(R001)
    decreases |vs|
  {
    var v, rest := vs[0], vs[1..];
    assert Valid(v, false);
    var one := ItemBytes(v);
    FrontOf(one, Encode(rest), k);
    if k < |one| {
      j := 0;
      if k > 0 { ItemCut(v, k); }
    } else {
      var i := RowCut(rest, k - |one|);
      j := i + 1;
      RowGoesOn(vs, i, Encode(rest)[..k - |one|]);
    }
  }

  lemma {:induction false} FrontStep(vs: seq<Val>, i: nat)
    requires ValidRow(vs) && i < |vs|
    ensures ValidRow(vs[..i + 1]) && Valid(vs[0], false) && vs[..i + 1] == [vs[0]] + vs[1..][..i]
    ensures Encode(vs[..i + 1]) == ItemBytes(vs[0]) + Encode(vs[1..][..i])
  {
    assert vs[..i + 1][1..] == vs[1..][..i];
  }

  // A first item before what reads as a row's first items, or is cut short.
  lemma {:induction false} RowGoesOn(vs: seq<Val>, i: nat, b: seq<byte>)
    requires ValidRow(vs) && i < |vs| && ValidRow(vs[1..][..i]) && Encode(vs[1..][..i]) <= b
    requires Decode(b) == if b == Encode(vs[1..][..i]) then Row(vs[1..][..i]) else Broken(R001)
    ensures Valid(vs[0], false) && ValidRow(vs[..i + 1])
    ensures var all := ItemBytes(vs[0]) + b;
            Encode(vs[..i + 1]) <= all
            && Decode(all) == if all == Encode(vs[..i + 1]) then Row(vs[..i + 1]) else Broken(R001)
  {
    FrontStep(vs, i);
    ItemInverse(vs[0], b);
    RowStep(vs[0], b);
    SameFront(ItemBytes(vs[0]), b, Encode(vs[1..][..i]));
  }

  lemma {:induction false} SameFront(a: seq<byte>, b: seq<byte>, c: seq<byte>)
    requires c <= b
    ensures a + c <= a + b && (a + b == a + c <==> b == c)
  {
    assert (a + b)[|a|..] == b && (a + c)[|a|..] == c;
  }

  lemma {:induction false} RowStep(v: Val, b: seq<byte>)
    requires Valid(v, false) && ReadAny(ItemBytes(v) + b, false) == ReadItem(v, b)
    ensures Decode(ItemBytes(v) + b) ==
            match Decode(b) case Broken(code) => Broken(code) case Row(vs) => Row([v] + vs)
  {
  }

  // ---------- out of bounds ----------

  lemma {:induction false} PowPositive(n: nat)
    ensures Pow128(n) >= 1
  {
    if n > 0 { PowPositive(n - 1); }
  }

  // A varint of more than eight bytes, and one with a byte too many.
  lemma {:induction false} LongVarint(u: nat, i: nat, rest: seq<byte>)
    requires i <= 8 && u >= Pow128(8 - i)
    ensures ReadVarint(Uvarint(u) + rest, i) == Bad(R002)
    decreases u
  {
    if i < 8 {
      var q := Shift7(u);
      PowPositive(7 - i);
      assert Pow128(8 - i) == 128 * Pow128(7 - i);
      assert Uvarint(u) + rest == [128 + (u - 128 * q)] + (Uvarint(q) + rest);
      LongVarint(q, i + 1, rest);
    }
  }

  function Padded(u: nat): seq<byte> {
    if u < 128 then [128 + u, 0] else [128 + (u - 128 * Shift7(u))] + Padded(Shift7(u))
  }

  lemma {:induction false} PaddedVarint(u: nat, i: nat, rest: seq<byte>)
    requires i <= 8
    ensures ReadVarint(Padded(u) + rest, i) == Bad(R002)
    decreases u
  {
    if i < 8 {
      if u < 128 {
        assert (Padded(u) + rest)[1..] == [0] + rest;
      } else {
        var q := Shift7(u);
        assert Padded(u) + rest == [128 + (u - 128 * q)] + (Padded(q) + rest);
        PaddedVarint(q, i + 1, rest);
      }
    }
  }

  lemma {:induction false} SignedRead(n: int, rest: seq<byte>)
    requires Zigzag(n) < Pow128(8)
    ensures ReadSigned(SignedBytes(n) + rest) == if InRange(n) then Read(n, rest) else Bad(R003)
  {
    VarintInverse(Zigzag(n), 0, rest);
    ZigzagInverse(n);
  }

  // A number outside its kind's range.
  lemma {:induction false} NumberRefused(tag: nat, n: int, rest: seq<byte>)
    requires tag in {246, 249, 250, 252} && !Valid(Number(tag, n), true) && Zigzag(n) < Pow128(8)
    ensures ReadPayload(tag, SignedBytes(n) + rest) == BadItem(R003)
  {
    SignedRead(n, rest);
    if InRange(n) { OutOfDays(tag, n); }
    NumberTag(tag, SignedBytes(n) + rest);
    NumberFault(tag, n, SignedBytes(n) + rest, rest);
  }

  lemma {:induction false} NumberTag(tag: nat, b: seq<byte>)
    requires tag in {246, 249, 250, 252}
    ensures ReadPayload(tag, b) == ReadNumber(tag, b)
  {
  }

  lemma {:induction false} NumberFault(tag: nat, n: int, b: seq<byte>, rest: seq<byte>)
    requires !InRange(n) || (tag == 249 && (n < MIN_DAY || n > MAX_DAY))
             || (tag == 250 && (n < MIN_DATETIME || n > MAX_DATETIME))
    requires ReadSigned(b) == if InRange(n) then Read(n, rest) else Bad(R003)
    ensures ReadNumber(tag, b) == BadItem(R003)
  {
  }

  lemma {:induction false} OutOfDays(tag: nat, n: int)
    requires tag in {246, 249, 250, 252} && !Valid(Number(tag, n), true) && InRange(n)
    ensures (tag == 249 && (n < MIN_DAY || n > MAX_DAY)) || (tag == 250 && (n < MIN_DATETIME || n > MAX_DATETIME))
  {
  }

  lemma {:induction false} TimeRefused(n: nat, rest: seq<byte>)
    requires MAX_TIME < n < Pow128(8)
    ensures ReadPayload(251, Uvarint(n) + rest) == BadItem(R003)
  {
    VarintInverse(n, 0, rest);
  }

  lemma {:induction false} DecimalRefused(n: int, scale: byte, rest: seq<byte>)
    requires !Valid(Decimal(n, scale), true) && Zigzag(n) < Pow128(8)
    ensures ReadPayload(247, [scale] + SignedBytes(n) + rest) == BadItem(if scale > 15 then R004 else R003)
  {
    ConsAppend(scale, SignedBytes(n), rest);
    SignedRead(n, rest);
  }

  // A NaN, an infinity or -0.
  lemma {:induction false} FloatRefused(bits: nat, rest: seq<byte>)
    requires bits < Pow256(8) && !GoodFloat(bits)
    ensures ReadPayload(248, LittleEndian(bits, 8) + rest) == BadItem(R005)
  {
    LittleEndianInverse(bits, 8);
    assert (LittleEndian(bits, 8) + rest)[..8] == LittleEndian(bits, 8);
  }

  // A string that is no UTF-8.
  lemma {:induction false} TextRefused(s: seq<byte>, rest: seq<byte>)
    requires !Utf8.Valid(s) && |s| <= MAX_INT
    ensures |s| <= 241 ==> ReadPayload(|s|, s + rest) == BadItem(R006)
    ensures |s| > 241 ==> ReadPayload(254, Prefixed(s) + rest) == BadItem(R006)
  {
    if |s| > 241 {
      PrefixedInverse(s, rest);
    } else {
      assert (s + rest)[..|s|] == s;
    }
  }

  // A string in a form that is not its own: long though it is short, or though it compresses; and
  // compressed though it is short, or though that saves nothing.
  lemma {:induction false} FormRefused(s: seq<byte>, stream: seq<byte>, rest: seq<byte>)
    requires Utf8.Valid(s) && |s| <= MAX_INT && stream == Lz4s.CompressSpec(s) && |stream| <= MAX_INT
    ensures |s| <= 241 || Smaller(|stream|, |s|) ==> ReadPayload(254, Prefixed(s) + rest) == BadItem(R007)
    ensures |s| <= 241 || !Smaller(|stream|, |s|) ==>
              ReadPayload(242, Uvarint(|s|) + Prefixed(stream) + rest) == BadItem(R007)
  {
    LongRefused(s, stream, rest);
    CompressedRead(|s|, stream, rest);
    if |s| > 241 && !Smaller(|stream|, |s|) { InflateRefused(s, rest); }
  }

  lemma {:induction false} LongRefused(s: seq<byte>, stream: seq<byte>, rest: seq<byte>)
    requires Utf8.Valid(s) && |s| <= MAX_INT && stream == Lz4s.CompressSpec(s)
    ensures |s| <= 241 || Smaller(|stream|, |s|) ==> ReadPayload(254, Prefixed(s) + rest) == BadItem(R007)
  {
    PrefixedInverse(s, rest);
  }

  lemma {:induction false} CompressedRead(u: nat, stream: seq<byte>, rest: seq<byte>)
    requires u <= MAX_INT && |stream| <= MAX_INT
    ensures ReadPayload(242, Uvarint(u) + Prefixed(stream) + rest) == Inflate(u, stream, rest)
  {
    Associate(Uvarint(u), Prefixed(stream), rest);
    LengthVarintInverse(u, Prefixed(stream) + rest);
    PrefixedInverse(stream, rest);
  }

  lemma {:induction false} InflateRefused(s: seq<byte>, rest: seq<byte>)
    requires Utf8.Valid(s) && |s| > 241 && !Smaller(|Lz4s.CompressSpec(s)|, |s|)
    ensures Inflate(|s|, Lz4s.CompressSpec(s), rest) == BadItem(R007)
  {
    Lz4sLaws.RoundTrip([], s);
    Lz4sLaws.ExpandBound(Lz4s.CompressSpec(s), |s|);
  }

  // A stream that is not the compressor's own for its string, or that yields none of that size.
  lemma {:induction false} StreamRefused(u: nat, stream: seq<byte>, rest: seq<byte>)
    requires 241 < u <= MAX_INT && |stream| <= MAX_INT
    requires match Lz4s.DecompressSpec(stream, u)
             case None => true
             case Some(s) => Utf8.Valid(s) && stream != Lz4s.CompressSpec(s)
    ensures ReadPayload(242, Uvarint(u) + Prefixed(stream) + rest) == BadItem(R009)
  {
    CompressedRead(u, stream, rest);
  }

  // A list in a list.
  lemma {:induction false} NestedScalars(items: seq<Val>, n: nat, nested: seq<byte>)
    requires Scalars(items) && |items| < n && nested != [] && nested[0] == 255
    ensures ReadScalars(ScalarsBytes(items) + nested, n) == BadItems(R008)
    decreases |items|
  {
    if items == [] {
      assert ScalarsBytes(items) + nested == nested;
    } else {
      var v, vs := items[0], items[1..];
      assert Valid(v, true) && items == [v] + vs;
      NestedScalars(vs, n - 1, nested);
      ScalarsCons(v, vs, nested);
      ScalarThen(v, ScalarsBytes(vs) + nested, n, R008);
    }
  }

  lemma {:induction false} NestedRefused(items: seq<Val>, n: nat, b: seq<byte>)
    requires Scalars(items) && |items| < n <= |items| + 1 + |b| && n <= MAX_INT
    ensures ReadList(Uvarint(n) + (ScalarsBytes(items) + ([255] + b))) == BadItem(R008)
  {
    var after := ScalarsBytes(items) + ([255] + b);
    ScalarsInverse(items, []);
    LengthInverse(n, after);
    NestedScalars(items, n, [255] + b);
  }
}
