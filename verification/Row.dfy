/** ROW v1 in bytes (row/row.go): the values, the one byte form of each, and what a decoder makes
    of any bytes. */
module Row {
  import opened Bytes
  import Lz4s
  import Utf8

  const MAX_SHORT := 241
  const MAX_INT := 0x1F_FFFF_FFFF_FFFF  // 2^53 - 1
  const MAX_SCALE := 15
  const MIN_DAY := -719162
  const MAX_DAY := 2932896
  const MIN_DATETIME := -62135596800000
  const MAX_DATETIME := 253402300799999
  const MAX_TIME := 86399999

  // A value; numbers are those a Go int64 holds, floats the 64 bits of a binary64.
  datatype Val =
    | Str(s: seq<byte>)
    | None
    | False
    | True
    | Int(n: int)
    | Decimal(n: int, scale: nat)
    | Float(bits: nat)
    | Date(n: int)
    | Datetime(n: int)
    | Time(n: int)
    | Duration(n: int)
    | Blob(s: seq<byte>)
    | List(items: seq<Val>)

  // The R codes of ROW's section on errors.
  datatype Code = R001 | R002 | R003 | R004 | R005 | R006 | R007 | R008 | R009

  predicate InRange(n: int) { -MAX_INT <= n <= MAX_INT }

  // Neither an infinity nor a NaN, of either sign (an exponent of all ones), and not -0.
  predicate GoodFloat(bits: nat) {
    && !(0x7FF0_0000_0000_0000 <= bits <= 0x8000_0000_0000_0000)
    && bits < 0xFFF0_0000_0000_0000
  }

  // What fromGo admits: every number in its range, every string UTF-8, no list in a list.
  // Lengths are those a varint can say.
  predicate Valid(v: Val, inList: bool) {
    match v
    case Str(s) => Utf8.Valid(s) && |s| <= MAX_INT
    case None => true
    case False => true
    case True => true
    case Int(n) => InRange(n)
    case Decimal(n, scale) => InRange(n) && scale <= MAX_SCALE
    case Float(bits) => GoodFloat(bits)
    case Date(n) => MIN_DAY <= n <= MAX_DAY
    case Datetime(n) => MIN_DATETIME <= n <= MAX_DATETIME
    case Time(n) => 0 <= n <= MAX_TIME
    case Duration(n) => InRange(n)
    case Blob(s) => |s| <= MAX_INT
    case List(items) => !inList && |items| <= MAX_INT && forall it :: it in items ==> Valid(it, true)
  }

  predicate ValidRow(vs: seq<Val>) { forall v :: v in vs ==> Valid(v, false) }

  // ---------- encoding ----------

  // u shifted right by seven bits; by repeated subtraction, which keeps the proofs linear.
  function Shift7(u: nat): (q: nat)
    ensures 128 * q <= u < 128 * q + 128
  {
    if u < 128 then 0 else 1 + Shift7(u - 128)
  }

  // u shifted right by one bit.
  function Shift1(u: nat): (q: nat)
    ensures 2 * q <= u < 2 * q + 2
  {
    if u < 2 then 0 else 1 + Shift1(u - 2)
  }

  // Unsigned LEB128 in its shortest form.
  function Uvarint(u: nat): (b: seq<byte>)
    ensures b != []
  {
    if u < 128 then [u] else [128 + (u - 128 * Shift7(u))] + Uvarint(Shift7(u))
  }

  function Zigzag(n: int): nat { if n >= 0 then 2 * n else -2 * n - 1 }

  function Unzigzag(u: nat): int { if u == 2 * Shift1(u) then Shift1(u) else -1 - (Shift1(u) as int) }

  // The compressed form of a string is used only if it is the shorter one.
  predicate Smaller(c: nat, n: nat) { |Uvarint(c)| + c < n }

  function Prefixed(s: seq<byte>): seq<byte> { Uvarint(|s|) + s }

  // Short when it fits a tag, else compressed when that is the shorter item, else long.
  function StringTag(s: seq<byte>): byte {
    if |s| <= MAX_SHORT then |s|
    else if Smaller(|Lz4s.CompressSpec(s)|, |s|) then 242
    else 254
  }

  function StringPayload(s: seq<byte>): seq<byte> {
    if |s| <= MAX_SHORT then s
    else if Smaller(|Lz4s.CompressSpec(s)|, |s|) then Uvarint(|s|) + Prefixed(Lz4s.CompressSpec(s))
    else Prefixed(s)
  }

  function SignedBytes(n: int): seq<byte> { Uvarint(Zigzag(n)) }

  function Tag(v: Val): byte {
    match v
    case Str(s) => StringTag(s)
    case None => 243
    case False => 244
    case True => 245
    case Int(n) => 246
    case Decimal(n, scale) => 247
    case Float(bits) => 248
    case Date(n) => 249
    case Datetime(n) => 250
    case Time(n) => 251
    case Duration(n) => 252
    case Blob(s) => 253
    case List(items) => 255
  }

  function Payload(v: Val): seq<byte>
    requires !v.List?
  {
    match v
    case Str(s) => StringPayload(s)
    case Int(n) => SignedBytes(n)
    case Decimal(n, scale) => [Min(scale, 255)] + SignedBytes(n)
    case Float(bits) => LittleEndian(bits, 8)
    case Date(n) => SignedBytes(n)
    case Datetime(n) => SignedBytes(n)
    case Time(n) => Uvarint(Max(n, 0))
    case Duration(n) => SignedBytes(n)
    case Blob(s) => Prefixed(s)
    case _ => []
  }

  function ScalarBytes(v: Val): seq<byte>
    requires !v.List?
  {
    [Tag(v)] + Payload(v)
  }

  function ScalarsBytes(items: seq<Val>): seq<byte>
    requires forall it :: it in items ==> Valid(it, true)
  {
    if items == [] then []
    else
      assert Valid(items[0], true);
      ScalarBytes(items[0]) + ScalarsBytes(items[1..])
  }

  function ItemBytes(v: Val): seq<byte>
    requires Valid(v, false)
  {
    if v.List? then [255] + (Uvarint(|v.items|) + ScalarsBytes(v.items)) else ScalarBytes(v)
  }

  function Encode(vs: seq<Val>): seq<byte>
    requires ValidRow(vs)
  {
    if vs == [] then []
    else
      assert Valid(vs[0], false);
      ItemBytes(vs[0]) + Encode(vs[1..])
  }

  // ---------- decoding ----------

  datatype Read = Bad(code: Code) | Read(n: int, rest: seq<byte>)

  datatype ReadItem = BadItem(code: Code) | ReadItem(v: Val, rest: seq<byte>)

  // A varint whose first i bytes have been read.
  function ReadVarint(b: seq<byte>, i: nat): (r: Read)
    requires i <= 8
    ensures r.Read? ==> |r.rest| < |b| && r.n >= 0
    decreases 8 - i
  {
    if i == 8 then Bad(R002)
    else if b == [] then Bad(R001)
    else if b[0] < 128 then if b[0] == 0 && i > 0 then Bad(R002) else Read(b[0], b[1..])
    else
      match ReadVarint(b[1..], i + 1)
      case Bad(code) => Bad(code)
      case Read(n, rest) => Read(b[0] as int - 128 + 128 * n, rest)
  }

  function ReadSigned(b: seq<byte>): (r: Read)
    ensures r.Read? ==> |r.rest| < |b|
  {
    match ReadVarint(b, 0)
    case Bad(code) => Bad(code)
    case Read(u, rest) => if u > 2 * MAX_INT then Bad(R003) else Read(Unzigzag(u), rest)
  }

  function ReadLength(b: seq<byte>): (r: Read)
    ensures r.Read? ==> |r.rest| < |b| && 0 <= r.n <= |r.rest|
  {
    match ReadVarint(b, 0)
    case Bad(code) => Bad(code)
    case Read(u, rest) =>
      if u > MAX_INT then Bad(R003) else if u > |rest| then Bad(R001) else Read(u, rest)
  }

  function ReadText(b: seq<byte>, n: nat): (r: ReadItem)
    requires n <= |b|
    ensures r.ReadItem? ==> |r.rest| <= |b|
  {
    if Utf8.Valid(b[..n]) then ReadItem(Str(b[..n]), b[n..]) else BadItem(R006)
  }

  function ReadShort(tag: nat, b: seq<byte>): (r: ReadItem)
    ensures r.ReadItem? ==> |r.rest| <= |b|
  {
    if tag > |b| then BadItem(R001) else ReadText(b, tag)
  }

  function ReadLong(b: seq<byte>): (r: ReadItem)
    ensures r.ReadItem? ==> |r.rest| <= |b|
  {
    match ReadLength(b)
    case Bad(code) => BadItem(code)
    case Read(n, rest) =>
      if n <= MAX_SHORT then BadItem(R007)
      else
        match ReadText(rest, n)
        case BadItem(code) => BadItem(code)
        case ReadItem(v, after) =>
          if Smaller(|Lz4s.CompressSpec(rest[..n])|, n) then BadItem(R007) else ReadItem(v, after)
  }

  // A stream that claims u bytes of text.
  function Inflate(u: nat, stream: seq<byte>, rest: seq<byte>): (r: ReadItem)
    ensures r.ReadItem? ==> r.rest == rest
  {
    if u <= MAX_SHORT then BadItem(R007)
    else if u > Lz4s.MAX_EXPAND * |stream| then BadItem(R009)
    else
      match Lz4s.DecompressSpec(stream, u)
      case None => BadItem(R009)
      case Some(text) =>
        if !Utf8.Valid(text) then BadItem(R006)
        else if Lz4s.CompressSpec(text) != stream then BadItem(R009)
        else if !Smaller(|stream|, u) then BadItem(R007)
        else ReadItem(Str(text), rest)
  }

  function ReadCompressed(b: seq<byte>): (r: ReadItem)
    ensures r.ReadItem? ==> |r.rest| <= |b|
  {
    match ReadVarint(b, 0)
    case Bad(code) => BadItem(code)
    case Read(u, more) =>
      if u > MAX_INT then BadItem(R003)
      else
        match ReadLength(more)
        case Bad(code) => BadItem(code)
        case Read(c, rest) => Inflate(u, rest[..c], rest[c..])
  }

  function ReadDecimal(b: seq<byte>): (r: ReadItem)
    ensures r.ReadItem? ==> |r.rest| <= |b|
  {
    if b == [] then BadItem(R001)
    else if b[0] > MAX_SCALE then BadItem(R004)
    else
      match ReadSigned(b[1..])
      case Bad(code) => BadItem(code)
      case Read(n, rest) => ReadItem(Decimal(n, b[0]), rest)
  }

  function ReadFloat(b: seq<byte>): (r: ReadItem)
    ensures r.ReadItem? ==> |r.rest| <= |b|
  {
    if |b| < 8 then BadItem(R001)
    else
      var bits := FromLittleEndian(b[..8]);
      if GoodFloat(bits) then ReadItem(Float(bits), b[8..]) else BadItem(R005)
  }

  // The kinds whose payload is one zigzag varint.
  function Number(tag: nat, n: int): Val {
    match tag
    case 246 => Int(n)
    case 249 => Date(n)
    case 250 => Datetime(n)
    case _ => Duration(n)
  }

  function ReadNumber(tag: nat, b: seq<byte>): (r: ReadItem)
    ensures r.ReadItem? ==> |r.rest| <= |b|
  {
    match ReadSigned(b)
    case Bad(code) => BadItem(code)
    case Read(n, rest) =>
      if tag == 249 && (n < MIN_DAY || n > MAX_DAY) then BadItem(R003)
      else if tag == 250 && (n < MIN_DATETIME || n > MAX_DATETIME) then BadItem(R003)
      else ReadItem(Number(tag, n), rest)
  }

  function ReadTime(b: seq<byte>): (r: ReadItem)
    ensures r.ReadItem? ==> |r.rest| <= |b|
  {
    match ReadVarint(b, 0)
    case Bad(code) => BadItem(code)
    case Read(u, rest) => if u > MAX_TIME then BadItem(R003) else ReadItem(Time(u), rest)
  }

  function ReadBlob(b: seq<byte>): (r: ReadItem)
    ensures r.ReadItem? ==> |r.rest| <= |b|
  {
    match ReadLength(b)
    case Bad(code) => BadItem(code)
    case Read(n, rest) => ReadItem(Blob(rest[..n]), rest[n..])
  }

  // The item of tag `tag`, any but a list's, whose payload b starts with.
  function ReadPayload(tag: nat, b: seq<byte>): (r: ReadItem)
    ensures r.ReadItem? ==> |r.rest| <= |b|
  {
    if tag <= MAX_SHORT then ReadShort(tag, b)
    else if tag == 242 then ReadCompressed(b)
    else if tag == 243 then ReadItem(Val.None, b)
    else if tag == 244 then ReadItem(False, b)
    else if tag == 245 then ReadItem(True, b)
    else if tag == 247 then ReadDecimal(b)
    else if tag == 248 then ReadFloat(b)
    else if tag == 251 then ReadTime(b)
    else if tag == 253 then ReadBlob(b)
    else if tag == 254 then ReadLong(b)
    else ReadNumber(tag, b)
  }

  datatype ReadItems = BadItems(code: Code) | ReadItems(vs: seq<Val>, rest: seq<byte>)

  // item: no list stands in a list.
  function ReadAny(b: seq<byte>, inList: bool): (r: ReadItem)
    requires b != []
    ensures r.ReadItem? ==> |r.rest| < |b|
    decreases |b|, 0, 0
  {
    if b[0] != 255 then ReadPayload(b[0], b[1..])
    else if inList then BadItem(R008)
    else ReadList(b[1..])
  }

  function ReadScalars(b: seq<byte>, n: nat): (r: ReadItems)
    ensures r.ReadItems? ==> |r.rest| <= |b|
    decreases |b|, 1, n
  {
    if n == 0 then ReadItems([], b)
    else if b == [] then BadItems(R001)
    else
      match ReadAny(b, true)
      case BadItem(code) => BadItems(code)
      case ReadItem(v, rest) =>
        match ReadScalars(rest, n - 1)
        case BadItems(code) => BadItems(code)
        case ReadItems(vs, after) => ReadItems([v] + vs, after)
  }

  function ReadList(b: seq<byte>): (r: ReadItem)
    ensures r.ReadItem? ==> |r.rest| <= |b|
    decreases |b|, 2, 0
  {
    match ReadLength(b)
    case Bad(code) => BadItem(code)
    case Read(n, rest) =>
      match ReadScalars(rest, n)
      case BadItems(code) => BadItem(code)
      case ReadItems(vs, after) => ReadItem(List(vs), after)
  }

  datatype Decoded = Broken(code: Code) | Row(vs: seq<Val>)

  function Decode(b: seq<byte>): Decoded
    decreases |b|
  {
    if b == [] then Row([])
    else
      match ReadAny(b, false)
      case BadItem(code) => Broken(code)
      case ReadItem(v, rest) =>
        match Decode(rest)
        case Broken(code) => Broken(code)
        case Row(vs) => Row([v] + vs)
  }
}
