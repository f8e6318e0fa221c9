/** ROW bytes and rows are in bijection: decoding undoes encoding, and every byte string that
    decodes is the encoding of what it decodes to. */
module RowLaws {
  import opened Bytes
  import opened Row
  import Lz4s
  import Lz4sLaws
  import Utf8

  // ---------- varints ----------

  function Pow128(n: nat): nat { if n == 0 then 1 else 128 * Pow128(n - 1) }

  lemma {:induction false} VarintInverse(u: nat, i: nat, rest: seq<byte>)
    requires i < 8 && u < Pow128(8 - i) && (i > 0 ==> u > 0)
    ensures ReadVarint(Uvarint(u) + rest, i) == Read(u, rest)
    decreases u
  {
    var b := Uvarint(u) + rest;
    if u < 128 {
      assert b[1..] == rest;
    } else {
      assert Pow128(1) == 128;
      VarintInverse(Shift7(u), i + 1, rest);
      assert b[1..] == Uvarint(Shift7(u)) + rest;
    }
  }

  lemma {:induction false} LengthVarintInverse(u: nat, rest: seq<byte>)
    requires u <= 2 * MAX_INT
    ensures ReadVarint(Uvarint(u) + rest, 0) == Read(u, rest)
  {
    assert Pow128(4) == 0x1000_0000;
    assert Pow128(8) == 0x100_0000_0000_0000;
    VarintInverse(u, 0, rest);
  }

  lemma {:induction false} UvarintCons(low: byte, n: nat)
    requires low >= 128 && n > 0
    ensures Uvarint(low - 128 + 128 * n) == [low] + Uvarint(n)
  {
    assert Shift7(low - 128 + 128 * n) == n;
  }

  lemma {:induction false} VarintExact(b: seq<byte>, i: nat, r: Read)
    requires i <= 8 && r == ReadVarint(b, i) && r.Read?
    ensures r.n >= 0 && b == Uvarint(r.n) + r.rest
    ensures i > 0 ==> r.n > 0
    decreases 8 - i
  {
    Split(b, 1);
    if b[0] >= 128 {
      var more := ReadVarint(b[1..], i + 1);
      VarintExact(b[1..], i + 1, more);
      UvarintCons(b[0], more.n);
      Associate([b[0]], Uvarint(more.n), more.rest);
    }
  }

  lemma {:induction false} ZigzagInverse(n: int)
    ensures Unzigzag(Zigzag(n)) == n
    ensures InRange(n) <==> Zigzag(n) <= 2 * MAX_INT
  {
  }

  lemma {:induction false} UnzigzagInverse(u: nat)
    ensures Zigzag(Unzigzag(u)) == u
  {
  }

  lemma {:induction false} SignedInverse(n: int, rest: seq<byte>)
    requires InRange(n)
    ensures ReadSigned(SignedBytes(n) + rest) == Read(n, rest)
  {
    ZigzagInverse(n);
    LengthVarintInverse(Zigzag(n), rest);
  }

  lemma {:induction false} SignedExact(b: seq<byte>)
    requires ReadSigned(b).Read?
    ensures b == SignedBytes(ReadSigned(b).n) + ReadSigned(b).rest && InRange(ReadSigned(b).n)
  {
    VarintExact(b, 0, ReadVarint(b, 0));
    UnzigzagInverse(ReadVarint(b, 0).n);
    ZigzagInverse(Unzigzag(ReadVarint(b, 0).n));
  }

  lemma {:induction false} LengthInverse(n: nat, rest: seq<byte>)
    requires n <= MAX_INT && n <= |rest|
    ensures ReadLength(Uvarint(n) + rest) == Read(n, rest)
  {
    LengthVarintInverse(n, rest);
  }

  lemma {:induction false} PrefixedInverse(s: seq<byte>, rest: seq<byte>)
    requires |s| <= MAX_INT
    ensures var r := ReadLength(Prefixed(s) + rest);
            r.Read? && r.n == |s| && r.rest[..r.n] == s && r.rest[r.n..] == rest
  {
    LengthInverse(|s|, s + rest);
    assert Prefixed(s) + rest == Uvarint(|s|) + (s + rest);
  }

  lemma {:induction false} PrefixedExact(b: seq<byte>)
    requires ReadLength(b).Read?
    ensures var r := ReadLength(b); b == Prefixed(r.rest[..r.n]) + r.rest[r.n..]
    ensures ReadLength(b).n <= MAX_INT
  {
    var r := ReadLength(b);
    VarintExact(b, 0, ReadVarint(b, 0));
    Split(r.rest, r.n);
    Associate(Uvarint(r.n), r.rest[..r.n], r.rest[r.n..]);
  }

  // ---------- strings ----------

  lemma {:induction false} ShortInverse(s: seq<byte>, rest: seq<byte>)
    requires Utf8.Valid(s) && |s| <= MAX_SHORT
    ensures ReadShort(|s|, s + rest) == ReadItem(Str(s), rest)
  {
    assert (s + rest)[..|s|] == s && (s + rest)[|s|..] == rest;
  }

  lemma {:induction false} LongInverse(s: seq<byte>, rest: seq<byte>)
    requires Utf8.Valid(s) && MAX_SHORT < |s| <= MAX_INT && !Smaller(|Lz4s.CompressSpec(s)|, |s|)
    ensures ReadLong(Prefixed(s) + rest) == ReadItem(Str(s), rest)
  {
    PrefixedInverse(s, rest);
  }

  // The early refusal of a claim longer than any stream can yield never refuses a real one.
  lemma {:induction false} InflateInverse(s: seq<byte>, rest: seq<byte>)
    requires Utf8.Valid(s) && MAX_SHORT < |s| && Smaller(|Lz4s.CompressSpec(s)|, |s|)
    ensures Inflate(|s|, Lz4s.CompressSpec(s), rest) == ReadItem(Str(s), rest)
  {
    Lz4sLaws.RoundTrip([], s);
    Lz4sLaws.ExpandBound(Lz4s.CompressSpec(s), |s|);
  }

  // The refusal of a claim over MAX_EXPAND bytes a stream byte comes before a decompression that
  // would have failed, with the same code: it refuses no stream the format admits.
  lemma {:induction false} EarlyRefusal(u: nat, stream: seq<byte>)
    ensures u > Lz4s.MAX_EXPAND * |stream| ==> Lz4s.DecompressSpec(stream, u).None?
  {
    if Lz4s.DecompressSpec(stream, u).Some? { Lz4sLaws.ExpandBound(stream, u); }
  }

  lemma {:induction false} CompressedInverse(s: seq<byte>, rest: seq<byte>)
    requires Utf8.Valid(s) && MAX_SHORT < |s| <= MAX_INT && Smaller(|Lz4s.CompressSpec(s)|, |s|)
    ensures ReadCompressed(Uvarint(|s|) + Prefixed(Lz4s.CompressSpec(s)) + rest) == ReadItem(Str(s), rest)
  {
    var stream := Lz4s.CompressSpec(s);
    assert Uvarint(|s|) + Prefixed(stream) + rest == Uvarint(|s|) + (Prefixed(stream) + rest);
    LengthVarintInverse(|s|, Prefixed(stream) + rest);
    PrefixedInverse(stream, rest);
    InflateInverse(s, rest);
  }

  lemma {:induction false} ShortExact(tag: nat, b: seq<byte>)
    requires tag <= MAX_SHORT && ReadShort(tag, b).ReadItem?
    ensures var r := ReadShort(tag, b);
            Valid(r.v, true) && Tag(r.v) == tag && b == Payload(r.v) + r.rest
  {
  }

  lemma {:induction false} LongExact(b: seq<byte>)
    requires ReadLong(b).ReadItem?
    ensures var r := ReadLong(b); r.v.Str? && Valid(r.v, true) && Tag(r.v) == 254 && b == Payload(r.v) + r.rest
  {
    PrefixedExact(b);
  }

  lemma {:induction false} InflateExact(u: nat, stream: seq<byte>, rest: seq<byte>)
    requires Inflate(u, stream, rest).ReadItem?
    ensures var r := Inflate(u, stream, rest);
            && r.v.Str? && |r.v.s| == u > MAX_SHORT && Utf8.Valid(r.v.s)
            && stream == Lz4s.CompressSpec(r.v.s) && Smaller(|stream|, u)
  {
    Lz4sLaws.ExpandBound(stream, u);
  }

  lemma {:induction false} CompressedExact(b: seq<byte>)
    requires ReadCompressed(b).ReadItem?
    ensures var r := ReadCompressed(b); r.v.Str? && Valid(r.v, true) && Tag(r.v) == 242 && b == Payload(r.v) + r.rest
  {
    var u := ReadVarint(b, 0);
    VarintExact(b, 0, ReadVarint(b, 0));
    PrefixedExact(u.rest);
    var c := ReadLength(u.rest);
    InflateExact(u.n, c.rest[..c.n], c.rest[c.n..]);
  }

  // ---------- scalars ----------

  lemma {:induction false} FloatInverse(bits: nat, rest: seq<byte>)
    requires Valid(Float(bits), true)
    ensures ReadFloat(LittleEndian(bits, 8) + rest) == ReadItem(Float(bits), rest)
  {
    var b := LittleEndian(bits, 8) + rest;
    assert Pow256(4) == 0x1_0000_0000;
    assert Pow256(8) == 0x1_0000_0000_0000_0000;
    LittleEndianInverse(bits, 8);
    assert b[..8] == LittleEndian(bits, 8) && b[8..] == rest;
  }

  lemma {:induction false} EightBytes(b: seq<byte>)
    requires |b| == 8
    ensures FromLittleEndian(b) < 0x1_0000_0000_0000_0000 && LittleEndian(FromLittleEndian(b), 8) == b
  {
    assert Pow256(4) == 0x1_0000_0000;
    assert Pow256(8) == 0x1_0000_0000_0000_0000;
    FromLittleEndianInverse(b);
  }

  lemma {:induction false} FloatExact(b: seq<byte>)
    requires ReadFloat(b).ReadItem?
    ensures var r := ReadFloat(b); r.v.Float? && Valid(r.v, true) && b == LittleEndian(r.v.bits, 8) + r.rest
  {
    EightBytes(b[..8]);
    Split(b, 8);
  }

  lemma {:induction false} DecimalInverse(n: int, scale: nat, rest: seq<byte>)
    requires Valid(Decimal(n, scale), true)
    ensures ReadDecimal(Payload(Decimal(n, scale)) + rest) == ReadItem(Decimal(n, scale), rest)
  {
    SignedInverse(n, rest);
    ConsAppend(scale, SignedBytes(n), rest);
  }

  lemma {:induction false} DecimalExact(b: seq<byte>)
    requires ReadDecimal(b).ReadItem?
    ensures var r := ReadDecimal(b); r.v.Decimal? && Valid(r.v, true) && b == Payload(r.v) + r.rest
  {
    SignedExact(b[1..]);
    Split(b, 1);
    var n := ReadSigned(b[1..]);
    Associate([b[0]], SignedBytes(n.n), n.rest);
  }

  lemma {:induction false} NumberInverse(tag: nat, n: int, rest: seq<byte>)
    requires tag in {246, 249, 250, 252} && Valid(Number(tag, n), true)
    ensures ReadNumber(tag, SignedBytes(n) + rest) == ReadItem(Number(tag, n), rest)
  {
    SignedInverse(n, rest);
  }

  lemma {:induction false} NumberExact(tag: nat, b: seq<byte>)
    requires tag in {246, 249, 250, 252} && ReadNumber(tag, b).ReadItem?
    ensures var r := ReadNumber(tag, b);
            Valid(r.v, true) && Tag(r.v) == tag && b == Payload(r.v) + r.rest
  {
    SignedExact(b);
  }

  lemma {:induction false} TimeInverse(n: int, rest: seq<byte>)
    requires 0 <= n <= MAX_TIME
    ensures ReadTime(Uvarint(n) + rest) == ReadItem(Time(n), rest)
  {
    LengthVarintInverse(n, rest);
  }

  lemma {:induction false} TimeExact(b: seq<byte>)
    requires ReadTime(b).ReadItem?
    ensures var r := ReadTime(b); r.v.Time? && Valid(r.v, true) && b == Payload(r.v) + r.rest
  {
    VarintExact(b, 0, ReadVarint(b, 0));
  }

  lemma {:induction false} StringForm(s: seq<byte>, stream: seq<byte>)
    requires stream == Lz4s.CompressSpec(s)
    ensures |s| <= MAX_SHORT ==> StringTag(s) == |s| && StringPayload(s) == s
    ensures |s| > MAX_SHORT && Smaller(|stream|, |s|) ==>
              StringTag(s) == 242 && StringPayload(s) == Uvarint(|s|) + Prefixed(stream)
    ensures |s| > MAX_SHORT && !Smaller(|stream|, |s|) ==> StringTag(s) == 254 && StringPayload(s) == Prefixed(s)
  {
  }

  lemma {:induction false} StringInverse(s: seq<byte>, rest: seq<byte>, tag: byte, b: seq<byte>)
    requires Valid(Str(s), true) && tag == StringTag(s) && b == StringPayload(s) + rest
    ensures ReadPayload(tag, b) == ReadItem(Str(s), rest)
  {
    var stream := Lz4s.CompressSpec(s);
    StringForm(s, stream);
    if |s| <= MAX_SHORT {
      ShortInverse(s, rest);
    } else if Smaller(|stream|, |s|) {
      CompressedInverse(s, rest);
    } else {
      LongInverse(s, rest);
    }
  }

  lemma {:induction false} MarkInverse(v: Val, rest: seq<byte>)
    requires v.None? || v.False? || v.True?
    ensures ReadPayload(Tag(v), Payload(v) + rest) == ReadItem(v, rest)
  {
    assert Payload(v) + rest == rest;
  }

  lemma {:induction false} IntegerInverse(v: Val, tag: nat, n: int, rest: seq<byte>)
    requires tag in {246, 249, 250, 252} && v == Number(tag, n) && Valid(v, true)
    ensures ReadPayload(tag, SignedBytes(n) + rest) == ReadItem(v, rest)
  {
    NumberInverse(tag, n, rest);
  }

  lemma {:induction false} PayloadInverse(v: Val, rest: seq<byte>)
    requires Valid(v, true)
    ensures ReadPayload(Tag(v), Payload(v) + rest) == ReadItem(v, rest)
  {
    match v
    case Str(s) => StringInverse(s, rest, Tag(v), Payload(v) + rest);
    case Decimal(n, scale) => DecimalInverse(n, scale, rest);
    case Float(bits) => FloatInverse(bits, rest);
    case Time(n) => TimeInverse(n, rest);
    case Blob(s) => PrefixedInverse(s, rest);
    case None => MarkInverse(v, rest);
    case False => MarkInverse(v, rest);
    case True => MarkInverse(v, rest);
    case Int(n) => IntegerInverse(v, 246, n, rest);
    case Date(n) => IntegerInverse(v, 249, n, rest);
    case Datetime(n) => IntegerInverse(v, 250, n, rest);
    case Duration(n) => IntegerInverse(v, 252, n, rest);
  }

  lemma {:induction false} PayloadExact(tag: byte, b: seq<byte>)
    requires tag != 255 && ReadPayload(tag, b).ReadItem?
    ensures var r := ReadPayload(tag, b);
            Valid(r.v, true) && Tag(r.v) == tag && b == Payload(r.v) + r.rest
  {
    if tag <= MAX_SHORT { ShortExact(tag, b); }
    else if tag == 242 { CompressedExact(b); }
    else if tag <= 245 { assert [] + b == b; }
    else if tag == 247 { DecimalExact(b); }
    else if tag == 248 { FloatExact(b); }
    else if tag == 251 { TimeExact(b); }
    else if tag == 253 { PrefixedExact(b); }
    else if tag == 254 { LongExact(b); }
    else { NumberExact(tag, b); }
  }

  lemma {:induction false} ScalarOfPayload(tag: byte, p: seq<byte>, rest: seq<byte>, v: Val)
    requires tag != 255 && ReadPayload(tag, p + rest) == ReadItem(v, rest)
    ensures ReadAny([tag] + p + rest, true) == ReadItem(v, rest)
  {
    ConsAppend(tag, p, rest);
  }

  lemma {:induction false} ScalarInverse(v: Val, rest: seq<byte>)
    requires Valid(v, true)
    ensures ReadAny(ScalarBytes(v) + rest, true) == ReadItem(v, rest)
  {
    PayloadInverse(v, rest);
    ScalarOfPayload(Tag(v), Payload(v), rest, v);
  }

  lemma {:induction false} ScalarRead(tag: byte, p: seq<byte>)
    requires tag != 255
    ensures ReadAny([tag] + p, true) == ReadPayload(tag, p)
  {
    assert ([tag] + p)[1..] == p;
  }

  lemma {:induction false} ScalarWritten(tag: byte, p: seq<byte>, v: Val, q: seq<byte>, rest: seq<byte>)
    requires !v.List? && Tag(v) == tag && q == Payload(v) && p == q + rest
    ensures [tag] + p == ScalarBytes(v) + rest
  {
    ConsAppend(tag, q, rest);
  }

  lemma {:induction false} ScalarExact(b: seq<byte>, r: ReadItem)
    requires b != [] && r == ReadAny(b, true) && r.ReadItem?
    ensures Valid(r.v, true) && !r.v.List? && b == ScalarBytes(r.v) + r.rest
  {
    var tag, p := b[0], b[1..];
    Split(b, 1);
    assert b == [tag] + p;
    PayloadExact(tag, p);
    ScalarRead(tag, p);
    ScalarWritten(tag, p, r.v, Payload(r.v), r.rest);
  }

  // ---------- lists ----------

  ghost predicate Scalars(vs: seq<Val>) { forall it :: it in vs ==> Valid(it, true) }

  lemma {:induction false} ScalarsCons(v: Val, vs: seq<Val>, rest: seq<byte>)
    requires Valid(v, true) && Scalars(vs)
    ensures Scalars([v] + vs)
    ensures ScalarBytes(v) + (ScalarsBytes(vs) + rest) == ScalarsBytes([v] + vs) + rest
  {
    assert ([v] + vs)[1..] == vs;
    Associate(ScalarBytes(v), ScalarsBytes(vs), rest);
  }

  lemma {:induction false} ReadScalarsCons(b: seq<byte>, v: Val, after: seq<byte>, vs: seq<Val>, rest: seq<byte>)
    requires b != [] && ReadAny(b, true) == ReadItem(v, after)
    requires ReadScalars(after, |vs|) == ReadItems(vs, rest)
    ensures ReadScalars(b, |vs| + 1) == ReadItems([v] + vs, rest)
  {
  }

  lemma {:induction false} ScalarsInverse(items: seq<Val>, rest: seq<byte>)
    requires Scalars(items)
    ensures ReadScalars(ScalarsBytes(items) + rest, |items|) == ReadItems(items, rest)
    ensures |ScalarsBytes(items)| >= |items|
  {
    if items == [] {
      assert ScalarsBytes(items) + rest == rest;
    } else {
      var v, vs := items[0], items[1..];
      assert Valid(v, true) && items == [v] + vs;
      var after := ScalarsBytes(vs) + rest;
      ScalarInverse(v, after);
      ScalarsInverse(vs, rest);
      ScalarsCons(v, vs, rest);
      ReadScalarsCons(ScalarBytes(v) + after, v, after, vs, rest);
    }
  }

  lemma {:induction false} ReadScalarsStep(b: seq<byte>, n: nat)
    requires n > 0 && ReadScalars(b, n).ReadItems?
    ensures b != [] && ReadAny(b, true).ReadItem?
    ensures var more := ReadScalars(ReadAny(b, true).rest, n - 1);
            more.ReadItems? && ReadScalars(b, n) == ReadItems([ReadAny(b, true).v] + more.vs, more.rest)
  {
  }

  lemma {:induction false} FirstExact(b: seq<byte>, n: nat, r: ReadItems) returns (first: ReadItem, more: ReadItems)
    requires n > 0 && r == ReadScalars(b, n) && r.ReadItems?
    ensures EncodesFirst(b, first, more, r) && more == ReadScalars(first.rest, n - 1)
  {
    ReadScalarsStep(b, n);
    first := ReadAny(b, true);
    more := ReadScalars(first.rest, n - 1);
    ScalarExact(b, first);
  }

  // What was read is the one encoding of n scalars.
  ghost predicate EncodesItems(b: seq<byte>, n: nat, r: ReadItems) {
    r.ReadItems? && |r.vs| == n && Scalars(r.vs) && b == ScalarsBytes(r.vs) + r.rest
  }

  ghost predicate EncodesFirst(b: seq<byte>, first: ReadItem, more: ReadItems, r: ReadItems) {
    && first.ReadItem? && Valid(first.v, true) && !first.v.List? && b == ScalarBytes(first.v) + first.rest
    && more.ReadItems? && r == ReadItems([first.v] + more.vs, more.rest)
  }

  lemma {:induction false} ScalarsExactStep(b: seq<byte>, n: nat, first: ReadItem, more: ReadItems, r: ReadItems)
    requires n > 0 && EncodesFirst(b, first, more, r) && EncodesItems(first.rest, n - 1, more)
    ensures EncodesItems(b, n, r)
  {
    ScalarsCons(first.v, more.vs, more.rest);
  }

  // A reader of a number of items, of which each is the one encoding of a scalar.
  ghost predicate Steps(read: (seq<byte>, nat) -> ReadItems, b: seq<byte>, n: nat, first: ReadItem) {
    n > 0 && first.ReadItem? && EncodesFirst(b, first, read(first.rest, n - 1), read(b, n))
  }

  ghost predicate ReadsOneByOne(read: (seq<byte>, nat) -> ReadItems) {
    && (forall b :: read(b, 0) == ReadItems([], b))
    && (forall b, n: nat :: n > 0 && read(b, n).ReadItems? ==> exists first :: Steps(read, b, n, first))
  }

  lemma {:induction false} OneByOneExact(read: (seq<byte>, nat) -> ReadItems, b: seq<byte>, n: nat)
    requires ReadsOneByOne(read) && read(b, n).ReadItems?
    ensures EncodesItems(b, n, read(b, n))
    decreases n
  {
    if n == 0 {
      assert [] + b == b;
    } else {
      var first :| Steps(read, b, n, first);
      OneByOneExact(read, first.rest, n - 1);
      ScalarsExactStep(b, n, first, read(first.rest, n - 1), read(b, n));
    }
  }

  lemma {:induction false} ScalarsStep(b: seq<byte>, n: nat)
    requires n > 0 && ReadScalars(b, n).ReadItems?
    ensures exists first :: Steps(ReadScalars, b, n, first)
  {
    var first, more := FirstExact(b, n, ReadScalars(b, n));
    assert Steps(ReadScalars, b, n, first);
  }

  lemma {:induction false} ScalarsExact(b: seq<byte>, n: nat, r: ReadItems)
    requires r == ReadScalars(b, n) && r.ReadItems?
    ensures |r.vs| == n && Scalars(r.vs) && b == ScalarsBytes(r.vs) + r.rest
  {
    forall c, m: nat | m > 0 && ReadScalars(c, m).ReadItems?
      ensures exists first :: Steps(ReadScalars, c, m, first)
    {
      ScalarsStep(c, m);
    }
    OneByOneExact(ReadScalars, b, n);
  }

  lemma {:induction false} ListOfScalars(count: seq<byte>, body: seq<byte>, rest: seq<byte>, items: seq<Val>)
    requires ReadLength(count + (body + rest)) == Read(|items|, body + rest)
    requires ReadScalars(body + rest, |items|) == ReadItems(items, rest)
    ensures ReadAny([255] + (count + body) + rest, false) == ReadItem(List(items), rest)
  {
    ConsAppend(255, count + body, rest);
    Associate(count, body, rest);
  }

  lemma {:induction false} ItemInverse(v: Val, rest: seq<byte>)
    requires Valid(v, false)
    ensures ReadAny(ItemBytes(v) + rest, false) == ReadItem(v, rest)
  {
    if v.List? {
      var after := ScalarsBytes(v.items) + rest;
      ScalarsInverse(v.items, rest);
      LengthInverse(|v.items|, after);
      ListOfScalars(Uvarint(|v.items|), ScalarsBytes(v.items), rest, v.items);
    } else {
      ScalarInverse(v, rest);
      ConsAppend(Tag(v), Payload(v), rest);
    }
  }

  lemma {:induction false} ListExact(b: seq<byte>)
    requires ReadList(b).ReadItem?
    ensures var r := ReadList(b);
            r.v.List? && Valid(r.v, false) && b == Uvarint(|r.v.items|) + ScalarsBytes(r.v.items) + r.rest
  {
    var n := ReadLength(b);
    VarintExact(b, 0, ReadVarint(b, 0));
    var items := ReadScalars(n.rest, n.n);
    ScalarsExact(n.rest, n.n, items);
    Associate(Uvarint(n.n), ScalarsBytes(items.vs), items.rest);
  }

  lemma {:induction false} ItemExact(b: seq<byte>)
    requires b != [] && ReadAny(b, false).ReadItem?
    ensures var r := ReadAny(b, false); Valid(r.v, false) && b == ItemBytes(r.v) + r.rest
  {
    Split(b, 1);
    if b[0] == 255 {
      ListExact(b[1..]);
      var r := ReadList(b[1..]);
      ConsAppend(255, Uvarint(|r.v.items|) + ScalarsBytes(r.v.items), r.rest);
    } else {
      ScalarExact(b, ReadAny(b, true));
      ValidAlone(ReadAny(b, true).v);
    }
  }

  lemma {:induction false} ValidAlone(v: Val)
    requires Valid(v, true)
    ensures Valid(v, false) && !v.List?
  {
  }

  // ---------- rows ----------

  lemma {:induction false} DecodeCons(b: seq<byte>, v: Val, rest: seq<byte>, vs: seq<Val>)
    requires b != [] && ReadAny(b, false) == ReadItem(v, rest) && Decode(rest) == Decoded.Row(vs)
    ensures Decode(b) == Decoded.Row([v] + vs)
  {
  }

  // Decoding undoes encoding.
  lemma {:induction false} DecodeEncode(vs: seq<Val>)
    requires ValidRow(vs)
    ensures Decode(Encode(vs)) == Decoded.Row(vs)
  {
    if vs != [] {
      var rest := Encode(vs[1..]);
      ItemInverse(vs[0], rest);
      DecodeEncode(vs[1..]);
      DecodeCons(ItemBytes(vs[0]) + rest, vs[0], rest, vs[1..]);
      assert vs == [vs[0]] + vs[1..];
    }
  }

  // Bytes that decode are the one encoding of what they decode to.
  lemma {:induction false} EncodeDecode(b: seq<byte>)
    requires Decode(b).Row?
    ensures ValidRow(Decode(b).vs) && Encode(Decode(b).vs) == b
    decreases |b|
  {
    if b != [] {
      var first := ReadAny(b, false);
      ItemExact(b);
      EncodeDecode(first.rest);
      var vs := Decode(first.rest).vs;
      assert ([first.v] + vs)[1..] == vs;
    }
  }
}
