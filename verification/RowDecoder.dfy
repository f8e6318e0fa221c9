/** The ROW decoder as it runs: a position advanced over the bytes (row/row.go), each of its
    methods proved to read what Row's functions say. */
module RowDecoder {
  import opened Bytes
  import opened Row
  import Lz4s
  import Lz4sCodec
  import Utf8

  // What a method read: its answer, and the decoder left at what follows; or the error's code.
  ghost predicate IsRead(r: Read, rest: seq<byte>, err: Option<Code>, n: int) {
    match r
    case Bad(code) => err == Some(code)
    case Read(value, after) => err == Option.None && n == value && rest == after
  }

  ghost predicate IsReadItem(r: ReadItem, rest: seq<byte>, err: Option<Code>, v: Val) {
    match r
    case BadItem(code) => err == Some(code)
    case ReadItem(value, after) => err == Option.None && v == value && rest == after
  }

  class Decoder {
    const b: seq<byte>
    var pos: nat

    constructor (b: seq<byte>)
      ensures this.b == b && pos == 0
    {
      this.b := b;
      pos := 0;
    }

    ghost predicate InBounds()
      reads this
    {
      pos <= |b|
    }

    ghost function Rest(): seq<byte>
      requires InBounds()
      reads this
    {
      b[pos..]
    }

    // Reads one byte.
    method Next() returns (c: byte)
      requires pos < |b|
      modifies this
      ensures pos == old(pos) + 1 && InBounds()
      ensures c == old(Rest())[0] && Rest() == old(Rest())[1..]
    {
      c := b[pos];
      pos := pos + 1;
    }

    // Reads n bytes.
    method Take(n: nat) returns (s: seq<byte>)
      requires InBounds() && n <= |Rest()|
      modifies this
      ensures pos == old(pos) + n && InBounds()
      ensures s == old(Rest())[..n] && Rest() == old(Rest())[n..]
    {
      s := b[pos..pos + n];
      pos := pos + n;
    }

    method Uvarint() returns (err: Option<Code>, u: nat)
      requires InBounds()
      modifies this
      ensures InBounds() && pos >= old(pos)
      ensures IsRead(ReadVarint(old(Rest()), 0), Rest(), err, u)
    {
      err, u := Digits(ReadVarint(Rest(), 0));
    }

    // One digit of a varint, the i-th: u is what the digits before it say.
    method OneDigit(i: nat, u: nat, ghost whole: Read) returns (more: bool, err: Option<Code>, v: nat)
      requires InBounds() && i < 8 && Continues(ReadVarint(Rest(), i), u, i, whole)
      modifies this
      ensures InBounds() && pos >= old(pos)
      ensures if more then Continues(ReadVarint(Rest(), i + 1), v, i + 1, whole) else IsRead(whole, Rest(), err, v)
    {
      more, err, v := false, Option.None, 0;
      ghost var before := Rest();
      NoDigit(before, i, u, whole, ReadVarint(before, i));
      if pos >= |b| { return false, Some(R001), 0; }
      var c := Next();
      if c < 128 {
        LastDigit(before, i, u, whole, ReadVarint(before, i));
        if c == 0 && i > 0 { return false, Some(R002), 0; }
        v := u + Shifted(c, i);
      } else {
        Digit(before, i, u, whole, ReadVarint(Rest(), i + 1));
        more, v := true, u + Shifted(c - 128, i);
      }
    }

    // A varint, digit by digit.
    method Digits(ghost whole: Read) returns (err: Option<Code>, u: nat)
      requires InBounds() && whole == ReadVarint(Rest(), 0)
      modifies this
      ensures InBounds() && pos >= old(pos)
      ensures IsRead(whole, Rest(), err, u)
    {
      var i: nat, more := 0, true;
      u, err := 0, Option.None;
      while more
        invariant InBounds() && pos >= old(pos) && i <= 8
        invariant if more then Continues(ReadVarint(Rest(), i), u, i, whole) else IsRead(whole, Rest(), err, u)
        decreases more, 8 - i
      {
        NoDigit(Rest(), i, u, whole, ReadVarint(Rest(), i));
        if i == 8 { return Some(R002), 0; }
        more, err, u := OneDigit(i, u, whole);
        if more { i := i + 1; }
      }
    }

    method Signed() returns (err: Option<Code>, n: int)
      requires InBounds()
      modifies this
      ensures InBounds() && pos >= old(pos)
      ensures IsRead(ReadSigned(old(Rest())), Rest(), err, n)
    {
      var u;
      err, u := Uvarint();
      if err != Option.None { return err, 0; }
      if u > 2 * MAX_INT { return Some(R003), 0; }
      return Option.None, Unzigzag(u);
    }

    method Length() returns (err: Option<Code>, n: nat)
      requires InBounds()
      modifies this
      ensures InBounds() && pos >= old(pos)
      ensures IsRead(ReadLength(old(Rest())), Rest(), err, n)
      ensures err == Option.None ==> n <= |Rest()|
    {
      var u;
      err, u := Uvarint();
      if err != Option.None { return err, 0; }
      if u > MAX_INT { return Some(R003), 0; }
      if u > |b| - pos { return Some(R001), 0; }
      return Option.None, u;
    }

    method Text(n: nat) returns (err: Option<Code>, v: Val)
      requires InBounds() && n <= |Rest()|
      modifies this
      ensures InBounds() && pos >= old(pos)
      ensures IsReadItem(ReadText(old(Rest()), n), Rest(), err, v)
    {
      var s := Take(n);
      if Utf8.Valid(s) { return Option.None, Str(s); }
      return Some(R006), Val.None;
    }

    method LongString() returns (err: Option<Code>, v: Val)
      requires InBounds()
      modifies this
      ensures InBounds() && pos >= old(pos)
      ensures IsReadItem(ReadLong(old(Rest())), Rest(), err, v)
    {
      var n;
      err, n := Length();
      if err != Option.None { return err, Val.None; }
      if n <= MAX_SHORT { return Some(R007), Val.None; }
      err, v := Text(n);
      if err == Option.None && Smaller(|Lz4s.CompressSpec(v.s)|, n) { err := Some(R007); }
    }

    method CompressedString() returns (err: Option<Code>, v: Val)
      requires InBounds()
      modifies this
      ensures InBounds() && pos >= old(pos)
      ensures IsReadItem(ReadCompressed(old(Rest())), Rest(), err, v)
    {
      var u, c;
      err, u := Uvarint();
      if err != Option.None { return err, Val.None; }
      if u > MAX_INT { return Some(R003), Val.None; }
      err, c := Length();
      if err != Option.None { return err, Val.None; }
      var stream := Take(c);
      if u <= MAX_SHORT { return Some(R007), Val.None; }
      if u > Lz4s.MAX_EXPAND * c { return Some(R009), Val.None; }
      var text, ok := Lz4sCodec.Undelta([], stream, u);
      if !ok { return Some(R009), Val.None; }
      if !Utf8.Valid(text) { return Some(R006), Val.None; }
      if Lz4s.CompressSpec(text) != stream { return Some(R009), Val.None; }
      if !Smaller(c, u) { return Some(R007), Val.None; }
      return Option.None, Str(text);
    }

    method DecimalNumber() returns (err: Option<Code>, v: Val)
      requires InBounds()
      modifies this
      ensures InBounds() && pos >= old(pos)
      ensures IsReadItem(ReadDecimal(old(Rest())), Rest(), err, v)
    {
      if |b| - pos < 1 { return Some(R001), Val.None; }
      var scale := Next();
      if scale > MAX_SCALE { return Some(R004), Val.None; }
      var n;
      err, n := Signed();
      v := Decimal(n, scale);
    }

    method FloatNumber() returns (err: Option<Code>, v: Val)
      requires InBounds()
      modifies this
      ensures InBounds() && pos >= old(pos)
      ensures IsReadItem(ReadFloat(old(Rest())), Rest(), err, v)
    {
      if |b| - pos < 8 { return Some(R001), Val.None; }
      var s := Take(8);
      var bits := FromLittleEndian(s);
      if !GoodFloat(bits) { return Some(R005), Val.None; }
      return Option.None, Float(bits);
    }

    method Integer(tag: byte) returns (err: Option<Code>, v: Val)
      requires InBounds()
      modifies this
      ensures InBounds() && pos >= old(pos)
      ensures IsReadItem(ReadNumber(tag, old(Rest())), Rest(), err, v)
    {
      var n;
      err, n := Signed();
      if err == Option.None && tag == 249 && (n < MIN_DAY || n > MAX_DAY) { err := Some(R003); }
      if err == Option.None && tag == 250 && (n < MIN_DATETIME || n > MAX_DATETIME) { err := Some(R003); }
      v := Number(tag, n);
    }

    method TimeOfDay() returns (err: Option<Code>, v: Val)
      requires InBounds()
      modifies this
      ensures InBounds() && pos >= old(pos)
      ensures IsReadItem(ReadTime(old(Rest())), Rest(), err, v)
    {
      var u;
      err, u := Uvarint();
      if err == Option.None && u > MAX_TIME { err := Some(R003); }
      v := Time(u);
    }

    method Bytes() returns (err: Option<Code>, v: Val)
      requires InBounds()
      modifies this
      ensures InBounds() && pos >= old(pos)
      ensures IsReadItem(ReadBlob(old(Rest())), Rest(), err, v)
    {
      var n;
      err, n := Length();
      if err != Option.None { return err, Val.None; }
      var s := Take(n);
      return Option.None, Blob(s);
    }

    // The payload of an item of tag `tag`, any but a list's.
    method Scalar(tag: byte) returns (err: Option<Code>, v: Val)
      requires InBounds()
      modifies this
      ensures InBounds() && pos >= old(pos)
      ensures IsReadItem(ReadPayload(tag, old(Rest())), Rest(), err, v)
    {
      err := Option.None;
      if tag <= MAX_SHORT {
        if tag > |b| - pos { return Some(R001), Val.None; }
        err, v := Text(tag);
      }
      else if tag == 243 { v := Val.None; }
      else if tag == 244 { v := False; }
      else if tag == 245 { v := True; }
      else if tag == 247 { err, v := DecimalNumber(); }
      else if tag == 248 { err, v := FloatNumber(); }
      else if tag == 251 { err, v := TimeOfDay(); }
      else if tag == 253 { err, v := Bytes(); }
      else if tag == 254 { err, v := LongString(); }
      else if tag == 242 { err, v := CompressedString(); }
      else { err, v := Integer(tag); }
    }

    // An item in a list, where no list may stand.
    method Element() returns (err: Option<Code>, v: Val)
      requires pos < |b|
      modifies this
      ensures InBounds() && pos > old(pos)
      ensures IsReadItem(ReadAny(old(Rest()), true), Rest(), err, v)
    {
      var tag := Next();
      if tag == 255 { return Some(R008), Val.None; }
      err, v := Scalar(tag);
    }

    method Elements(n: nat) returns (err: Option<Code>, items: seq<Val>)
      requires InBounds()
      modifies this
      ensures InBounds() && pos >= old(pos)
      ensures match ReadScalars(old(Rest()), n)
              case BadItems(code) => err == Some(code)
              case ReadItems(vs, after) => err == Option.None && items == vs && Rest() == after
    {
      items := [];
      var left := n;
      ghost var whole := ReadScalars(Rest(), n);
      while left > 0
        invariant InBounds() && pos >= old(pos)
        invariant Resumes(ReadScalars(Rest(), left), items, whole)
      {
        if pos >= |b| { return Some(R001), []; }
        var v;
        err, v := ListElement(left, items, whole);
        if err != Option.None { return err, []; }
        items, left := items + [v], left - 1;
      }
      err := Option.None;
    }

    // One of the elements still to be read.
    method ListElement(ghost left: nat, ghost items: seq<Val>, ghost whole: ReadItems)
        returns (err: Option<Code>, v: Val)
      requires pos < |b| && left > 0 && Resumes(ReadScalars(Rest(), left), items, whole)
      modifies this
      ensures InBounds() && pos > old(pos)
      ensures err.Some? ==> whole == BadItems(err.value)
      ensures err.None? ==> Resumes(ReadScalars(Rest(), left - 1), items + [v], whole)
    {
      ghost var before := Rest();
      err, v := Element();
      ElementRead(before, left, items, whole);
    }

    // An item where a list may stand.
    method Item() returns (err: Option<Code>, v: Val)
      requires pos < |b|
      modifies this
      ensures InBounds() && pos > old(pos)
      ensures IsReadItem(ReadAny(old(Rest()), false), Rest(), err, v)
    {
      var tag := Next();
      if tag != 255 {
        err, v := Scalar(tag);
        return;
      }
      var n, items;
      err, n := Length();
      if err != Option.None { return err, Val.None; }
      err, items := Elements(n);
      v := List(items);
    }
  }

  // d shifted left by i digits of seven bits.
  function Shifted(d: nat, i: nat): nat
    decreases i
  {
    if i == 0 then d else Shifted(128 * d, i - 1)
  }

  lemma {:induction false} ShiftedSum(d: nat, n: nat, i: nat)
    ensures Shifted(d + n, i) == Shifted(d, i) + Shifted(n, i)
    decreases i
  {
    if i > 0 { ShiftedSum(128 * d, 128 * n, i - 1); }
  }

  // A varint read on from the middle: what is left stands i digits above the u already read.
  ghost predicate Continues(left: Read, u: nat, i: nat, whole: Read) {
    match left
    case Bad(code) => whole == Bad(code)
    case Read(n, rest) => n >= 0 && whole == Read.Read(u + Shifted(n, i), rest)
  }

  lemma {:induction false} Digit(b: seq<byte>, i: nat, u: nat, whole: Read, next: Read)
    requires i < 8 && b != [] && b[0] >= 128 && next == ReadVarint(b[1..], i + 1)
             && Continues(ReadVarint(b, i), u, i, whole)
    ensures Continues(next, u + Shifted(b[0] - 128, i), i + 1, whole)
  {
    if next.Read? { ShiftedSum(b[0] - 128, 128 * next.n, i); }
  }

  lemma {:induction false} NoDigit(b: seq<byte>, i: nat, u: nat, whole: Read, left: Read)
    requires i <= 8 && left == ReadVarint(b, i) && Continues(left, u, i, whole)
    ensures i == 8 ==> whole == Bad(R002)
    ensures i < 8 && b == [] ==> whole == Bad(R001)
  {
  }

  lemma {:induction false} LastDigit(b: seq<byte>, i: nat, u: nat, whole: Read, left: Read)
    requires i < 8 && b != [] && b[0] < 128 && left == ReadVarint(b, i) && Continues(left, u, i, whole)
    ensures whole == if b[0] == 0 && i > 0 then Bad(R002) else Read.Read(u + Shifted(b[0], i), b[1..])
  {
  }

  ghost predicate Resumes(left: ReadItems, items: seq<Val>, whole: ReadItems) {
    match left
    case BadItems(code) => whole == BadItems(code)
    case ReadItems(vs, rest) => whole == ReadItems.ReadItems(items + vs, rest)
  }

  lemma {:induction false} ElementRead(b: seq<byte>, n: nat, items: seq<Val>, whole: ReadItems)
    requires n > 0 && b != [] && Resumes(ReadScalars(b, n), items, whole)
    ensures match ReadAny(b, true)
            case BadItem(code) => whole == BadItems(code)
            case ReadItem(v, after) => Resumes(ReadScalars(after, n - 1), items + [v], whole)
  {
    match ReadAny(b, true)
    case BadItem(code) =>
    case ReadItem(v, after) =>
      var more := ReadScalars(after, n - 1);
      if more.ReadItems? { assert items + ([v] + more.vs) == items + [v] + more.vs; }
  }

  ghost predicate ResumesRow(left: Decoded, vs: seq<Val>, whole: Decoded) {
    match left
    case Broken(code) => whole == Broken(code)
    case Row(more) => whole == Decoded.Row(vs + more)
  }

  // decodeVals: a whole row, or the code of its first broken item.
  method DecodeVals(b: seq<byte>) returns (err: Option<Code>, vs: seq<Val>)
    ensures match Decode(b)
            case Broken(code) => err == Some(code)
            case Row(row) => err == Option.None && vs == row
  {
    var d := new Decoder(b);
    vs := [];
    while d.pos < |b|
      invariant d.b == b && d.InBounds() && fresh(d)
      invariant ResumesRow(Decode(d.Rest()), vs, Decode(b))
      decreases |b| - d.pos
    {
      var v;
      err, v := d.Item();
      if err != Option.None { return err, []; }
      vs := vs + [v];
    }
    err := Option.None;
  }
}
